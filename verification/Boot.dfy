/**
 From reset to the first user instruction and on (kernel/kernel.c): when boot succeeds, and
 that the invariants of the whole kernel hold from then on.
 */
module Boot {
  import opened Words
  import opened Sv39
  import opened Layout
  import opened Pmm
  import opened Hardware
  import opened KernelMap
  import opened Ownership
  import opened Shape
  import opened Birth
  import opened Kernel
  import opened Traps
  import opened Steps
  import opened System
  import opened Uses
  import Spaces
  import Fork
  import UserMemory
  import ForkMeaning
  import Load
  import Runs
  import Calls
  import Schedule
  import Scheduler

  /** MAKE_SATP: Sv39 mode and the number of the root frame. */
  function MakeSatp(root: nat): nat { 0x8000_0000_0000_0000 + root / PAGE_SIZE }

  /** A loadable segment of the first program, page-aligned. */
  datatype Image = Image(va: nat, size: nat, code: bool, content: Page)

  predicate ImageOk(i: Image) {
    0 < i.va < WORD_LIMIT && i.va % PAGE_SIZE == 0 && |i.content| == ENTRIES
  }

  /** The region recorded for a segment. */
  function RegionOf(i: Image): Region {
    Region(i.va, 1, if i.code then CodeSegment else DataSegment)
  }

  function RegionsOf(program: seq<Image>): seq<Region> {
    seq(|program|, i requires 0 <= i < |program| => RegionOf(program[i]))
  }

  /** Every segment is in memory. */
  ghost predicate ProgramLoaded(s: State, program: seq<Image>) {
    forall i :: 0 <= i < |program| ==> Load.Loaded(s, RegionOf(program[i]), program[i].content)
  }

  /** The stack page of the first process is there for it to load and store. */
  ghost predicate HasStack(s: State) {
    var w := LeafWord(s, UserTree(0), 0x7_fffe);
    Sv39.Valid(w) && Readable(w) && Writable(w) && UserPage(w)
  }

  /** At every address of a segment the first process fetches, loads and stores, and finds the segment's words. */
  ghost predicate ProgramSeen(x: Snap, program: seq<Image>)
    requires x.spaces != []
  {
    forall i, va: nat, access: Access {:trigger program[i], Runs.Seen(x, 0, va, access)} ::
      0 <= i < |program| && va / 4096 == program[i].va / 4096 ==>
        var t := Runs.Seen(x, 0, va, access);
        && t.Address? && va % 4096 / 8 < |program[i].content|
        && ForkMeaning.WordAt(x.s.mem, t.pa) == program[i].content[va % 4096 / 8]
  }

  /** Below its initial stack pointer it loads and stores in a page of its own. */
  ghost predicate StackSeen(x: Snap)
    requires x.spaces != []
  {
    forall va: nat, access: Access :: 0x7fff_e000 <= va < 0x7fff_f000 && !access.Fetch? ==>
      Runs.Seen(x, 0, va, access).Address?
  }

  lemma BootedSees(x: Snap, program: seq<Image>)
    requires SnapOk(x) && x.spaces != [] && ProgramLoaded(x.s, program) && HasStack(x.s)
    ensures ProgramSeen(x, program) && StackSeen(x)
  {
    hide Base, Schedule.Inv, HeapOk, LeafWord, Translate, LookupPa, Spaces.Inv, UserMemory.Orderly, Sv39.Valid,
      Readable, Writable, Executable, UserPage, Load.Loaded, ForkMeaning.WordAt;
    var n, trap := |x.spaces|, x.cfg.trapSec;
    Spaces.InvGives(x.s, x.spaces, trap, x.exhausted, 0);
    forall i, va: nat, access: Access | 0 <= i < |program| && va / 4096 == program[i].va / 4096
      ensures var t := Runs.Seen(x, 0, va, access);
        && t.Address? && va % 4096 / 8 < |program[i].content|
        && ForkMeaning.WordAt(x.s.mem, t.pa) == program[i].content[va % 4096 / 8]
    {
      Load.SegmentRuns(x.s, n, trap, RegionOf(program[i]), program[i].content, va, access);
    }
    forall va: nat, access: Access | 0x7fff_e000 <= va < 0x7fff_f000 && !access.Fetch?
      ensures Runs.Seen(x, 0, va, access).Address?
    {
      assert va / PAGE_SIZE == 0x7_fffe;
      ForkMeaning.ByLeaf(x.s, n, trap, 0, va, access, true);
    }
  }

  lemma StackStays(s: State, s': State)
    requires HasStack(s) && (Evolves(s, s', 0, {}) || SameLeaves(s, s'))
    ensures HasStack(s')
  {
    hide LeafWord, Sv39.Valid, FramesStay, NodesStay;
    assert LeafWord(s', UserTree(0), 0x7_fffe) == LeafWord(s, UserTree(0), 0x7_fffe);
  }

  lemma NewStack(s: State, tf: nat, us: nat, trapSec: nat)
    requires NewLeaves(s, 0, tf, us, trapSec) && us < PPN_LIMIT && Spaces.STACK_VPN !in {tf, trapSec}
    ensures HasStack(s)
  {
    hide LeafWord, LeafEntry, ProtToType, Sv39.Valid, Readable, Writable, UserPage;
    assert LeafWord(s, UserTree(0), 0x7_fffe) == NewLeaf(tf, us, trapSec, 0x7_fffe);
    AddressOfFrame(us);
    EncodedLeaf(us * PAGE_SIZE, Spaces.READ_WRITE, true);
  }

  /** The frame of the kernel's directory. */
  ghost function KernelRoot(s: State): nat {
    if Root(KernelTree) in s.nodes then s.nodes[Root(KernelTree)] else 0
  }

  // ---- memory and the kernel's map ----

  function Managed(memSize: nat): nat { if memSize < 0x800_0000 then memSize else 0x800_0000 }

  /** The frames of the pool, given the end of the kernel and the size of memory. */
  function PoolFrames(kernelEnd: nat, memSize: nat): nat {
    PoolCount(RoundUp(kernelEnd), DRAM_BASE + Managed(memSize))
  }

  /** The memory suffices for the kernel itself. */
  predicate KernelFits(kernelEnd: nat, memSize: nat) {
    kernelEnd <= 0x8000_0000 + Managed(memSize) && PoolFrames(kernelEnd, memSize) >= KERNEL_MAP_FRAMES
  }

  /** The free list once the kernel's map is built: the pool from its top, without the frames of the map. */
  ghost predicate ListAfterBoot(free: seq<nat>, kernelEnd: nat, memSize: nat) {
    var first, n := RoundUp(kernelEnd) / PAGE_SIZE, PoolFrames(kernelEnd, memSize);
    && |free| == n - KERNEL_MAP_FRAMES
    && forall i :: 0 <= i < |free| ==> free[i] == first + n - 1 - KERNEL_MAP_FRAMES - i
  }

  /** The uses of frames before any process exists. */
  ghost predicate NoProcess(s: State) {
    && TreesOwned(s, 0)
    && forall f :: f in s.roles ==> s.roles[f].Free? || s.roles[f].Table? || s.roles[f].Image?
  }

  lemma ImageFrame(s: State, start: nat, end: nat, trap: nat)
    requires Well(s) && s.nodes == map[] && trap in s.mem && 0 < trap < PPN_LIMIT && trap * PAGE_SIZE < start
    requires forall f: nat :: f in s.free <==> InPool(start, end, f)
    requires forall f :: f in s.roles && s.roles[f].Plain() ==> s.roles[f].Image?
    ensures TrapSection(s, trap) && forall f :: f in s.roles ==> s.roles[f].Free? || s.roles[f].Image?
  {
    assert trap in s.roles.Keys && trap !in s.free;
    forall f | f in s.roles ensures s.roles[f].Free? || s.roles[f].Image? {
      assert !s.roles[f].Table?;
    }
  }

  lemma BeforeProcesses(s0: State, s: State, trap: nat, start: nat, end: nat)
    requires s0.nodes == map[] && PlainKept(s0, s) && OnlyKernelNodes(s0, s) && TrapSection(s0, trap)
    requires forall f :: f in s0.roles ==> s0.roles[f].Free? || s0.roles[f].Image?
    requires s0.roles.Keys == s0.mem.Keys && FreeOk(s0) && forall f: nat :: f in s0.free <==> InPool(start, end, f)
    ensures NoProcess(s) && TrapSection(s, trap) && PoolInUse(s, start, end)
  {
    forall f: nat | InPool(start, end, f) ensures f in s.roles && !s.roles[f].Image? {
      assert f in s0.free && f in s0.mem.Keys && f in s0.roles.Keys && s0.roles[f].Free? && f in s.roles.Keys;
    }
    forall f | f in s.roles ensures s.roles[f].Free? || s.roles[f].Table? || s.roles[f].Image? {
      assert f in s0.roles.Keys && f in s0.mem.Keys;
    }
    forall f | f in s.roles && !s.roles[f].Image? ensures InPool(start, end, f) {
      assert f in s0.roles.Keys && f in s0.mem.Keys && f in s0.free;
    }
    assert trap in s.roles.Keys && trap in s.mem.Keys;
  }

  lemma BeforeUses(s: State)
    requires Well(s)
    ensures s.roles.Keys == s.mem.Keys && FreeOk(s)
  {
  }

  lemma ListLeft(free: seq<nat>, free': seq<nat>, kernelEnd: nat, memSize: nat)
    requires var first := RoundUp(kernelEnd) / PAGE_SIZE;
      Descending(free, first, first + PoolFrames(kernelEnd, memSize))
    requires ListDropped(free, free', KERNEL_MAP_FRAMES)
    ensures ListAfterBoot(free', kernelEnd, memSize)
  {
    hide PoolFrames;
  }

  /** Physical memory and the kernel's map, up to enable_paging. */
  method InitMemory(ram: Memory, kernelEnd: nat, memSize: nat, etext: nat, trap: nat)
      returns (r: Outcome, mc: Machine, root: nat)
    requires forall f :: f in ram ==> 0 < f < PPN_LIMIT && |ram[f]| == ENTRIES
    requires forall f: nat :: DRAM_BASE <= f * PAGE_SIZE < DRAM_BASE + memSize ==> f in ram
    requires KERN_BASE < kernelEnd < WORD_LIMIT - PAGE_SIZE && memSize < WORD_LIMIT
    requires KERN_BASE <= etext <= PHYS_TOP && etext % PAGE_SIZE == 0
    requires trap in ram && trap * PAGE_SIZE < kernelEnd
    ensures fresh(mc) && (r.Done? || r.Halted?)
    ensures r.Done? <==> KernelFits(kernelEnd, memSize)
    ensures r.Done? ==>
      && mc.Valid() && NoProcess(mc.S()) && trap * PAGE_SIZE < mc.startAddr
      && mc.startAddr == RoundUp(kernelEnd) && mc.endAddr == DRAM_BASE + Managed(memSize)
      && Base(mc.S(), trap, mc.startAddr, mc.endAddr, etext) && ListAfterBoot(mc.free, kernelEnd, memSize)
      && Root(KernelTree) in mc.nodes && root == mc.nodes[Root(KernelTree)] * PAGE_SIZE
  {
    hide Well, LeafWord, IdentityLeaf, NoProcess, TrapSection, PlainKept, OnlyKernelNodes, PoolInUse, FreeOk,
      ListAfterBoot, RoundUp, InPool;
    root := 0;
    mc := new Machine(ram);
    var managed;
    r, managed := mc.PmmInit(kernelEnd, memSize);
    if !r.Done? { return; }
    ghost var s0 := mc.S();
    ImageFrame(s0, mc.startAddr, mc.endAddr, trap);
    r, root := KernVmInit(mc, etext);
    if !r.Done? { return; }
    ListLeft(s0.free, mc.free, kernelEnd, memSize);
    BeforeUses(s0);
    BeforeProcesses(s0, mc.S(), trap, mc.startAddr, mc.endAddr);
  }

  // ---- the first program ----

  /** The first program's context: everything zero except the stack pointer and the entry point. */
  function FirstContext(entry: nat): Saved {
    Saved(seq(31, i => if i == 1 then 0x7fff_f000 else 0), entry)
  }

  function SegmentPages(program: seq<Image>): seq<nat> {
    seq(|program|, i requires 0 <= i < |program| => program[i].va / PAGE_SIZE)
  }

  /** The first process fits into a list of so many frames that starts with `tf`. */
  ghost predicate ProgramFits(frames: nat, tf: nat, trapSec: nat, program: seq<Image>) {
    && (forall i :: 0 <= i < |program| ==> program[i].size < PAGE_SIZE)
    && FitsIn(frames, 0, [Spaces.STACK_VPN, tf, trapSec] + SegmentPages(program), 5 + |program|)
  }

  lemma ProgramPrefix(s: State, first: seq<nat>, program: seq<Image>, i: nat)
    requires i <= |program|
    ensures Fits(s, 0, first + SegmentPages(program), 5 + |program|) ==>
      Fits(s, 0, first + SegmentPages(program[..i]), 5 + i)
    ensures i < |program| ==>
      first + SegmentPages(program[..i]) + [program[i].va / PAGE_SIZE] == first + SegmentPages(program[..i + 1])
  {
    hide Fits;
    var all, some := SegmentPages(program), SegmentPages(program[..i]);
    assert all == some + all[i..];
    assert first + all == first + some + all[i..];
    if Fits(s, 0, first + all, 5 + |program|) {
      FitsPrefix(s, 0, first + some, all[i..], 5 + i, 5 + |program|);
    }
    if i < |program| {
      assert SegmentPages(program[..i + 1]) == some + [program[i].va / PAGE_SIZE];
    }
  }

  /** What the loader keeps while it works: one process in its first context, and the segments loaded so far. */
  ghost predicate Loading(k: Kernel, program: seq<Image>, i: nat, s0: State, first: seq<nat>)
    reads k, k.mc
    requires i <= |program|
  {
    && k.Valid() && |k.spaces| == 1 && |k.spaces[0].regions| == 3 + i
    && k.spaces[0].regions[3..] == RegionsOf(program[..i])
    && k.spaces[0].trapframe in k.mc.mem && NewContext(k.mc.mem[k.spaces[0].trapframe])
    && (forall j :: 0 <= j < i ==> program[j].size < PAGE_SIZE)
    && ProgramLoaded(k.mc.S(), program[..i]) && KernelRoot(k.mc.S()) == KernelRoot(s0) && HasStack(k.mc.S())
    && Shaped(s0, k.mc.S(), 0, first + SegmentPages(program[..i]), 5 + i)
  }

  /** The next segment. */
  method LoadNext(k: Kernel, program: seq<Image>, i: nat, ghost s0: State, ghost first: seq<nat>) returns (r: Outcome)
    requires i < |program| <= REGION_SLOTS - 3 && ImageOk(program[i]) && Loading(k, program, i, s0, first)
    modifies k, k.mc
    ensures r.Done? || r.Halted?
    ensures r.Done? <==>
      program[i].size < PAGE_SIZE && Fits(s0, 0, first + SegmentPages(program[..i + 1]), 5 + i + 1)
    ensures k.heap == old(k.heap) && k.exhausted == old(k.exhausted) && k.ufree == old(k.ufree)
    ensures r.Done? ==> Loading(k, program, i + 1, s0, first)
  {
    hide Kernel.Valid, NewContext, Evolves, LeafWord, FrameOf, Sv39.Valid, Leads, Spaces.Inv, Fits, Shaped,
      SegmentPages, Spaces.CanGrant, Load.Loaded, SameLeaves, HasStack;
    KernelParts(k);
    ghost var s, spaces := k.mc.S(), k.spaces;
    var p := program[i];
    ProgramPrefix(s0, first, program, i);
    r := k.LoadSegment(p.va, p.size, p.code, p.content, s0, first + SegmentPages(program[..i]), 5 + i);
    if !r.Done? { return; }
    LoadKeepsContext(s, k.mc.S(), spaces, k.trapSec, k.exhausted);
    MoreLoaded(s, k.mc.S(), program, i);
    StackStays(s, k.mc.S());
    RegionsNext(spaces, program, i);
  }

  lemma RegionsNext(spaces: seq<Space>, program: seq<Image>, i: nat)
    requires |spaces| == 1 && i < |program| && |spaces[0].regions| == 3 + i
    requires spaces[0].regions[3..] == RegionsOf(program[..i])
    ensures var after := Fork.WithRegion(spaces, 0, RegionOf(program[i]));
      |after| == 1 && |after[0].regions| == 3 + i + 1 && after[0].regions[3..] == RegionsOf(program[..i + 1])
      && after[0].trapframe == spaces[0].trapframe
  {
    var region := RegionOf(program[i]);
    assert RegionsOf(program[..i + 1]) == RegionsOf(program[..i]) + [region];
    assert (spaces[0].regions + [region])[3..] == spaces[0].regions[3..] + [region];
  }

  lemma MoreLoaded(s: State, s': State, program: seq<Image>, i: nat)
    requires i < |program| && ProgramLoaded(s, program[..i]) && Evolves(s, s', 0, {})
    requires Load.Loaded(s', RegionOf(program[i]), program[i].content)
    ensures ProgramLoaded(s', program[..i + 1])
    ensures Root(KernelTree) in s.nodes ==> KernelRoot(s') == KernelRoot(s)
  {
    hide Load.Loaded, LeavesStay, FramesStay;
    var more := program[..i + 1];
    forall j | 0 <= j < |more| ensures Load.Loaded(s', RegionOf(more[j]), more[j].content) {
      if j < i {
        assert more[j] == program[..i][j];
        Load.LoadedStays(s, s', RegionOf(program[j]), program[j].content);
      }
    }
  }

  /** load_user_program: the first process and its segments. */
  method LoadProgram(k: Kernel, program: seq<Image>, entry: nat) returns (r: Outcome)
    requires k.Valid() && k.spaces == []
    requires |program| <= REGION_SLOTS - 3 && forall i :: 0 <= i < |program| ==> ImageOk(program[i])
    modifies k, k.mc
    ensures r.Done? || r.Halted?
    ensures r.Done? <==>
      && (forall i :: 0 <= i < |program| ==> program[i].size < PAGE_SIZE)
      && Fits(old(k.mc.S()), 0, FirstPages(old(k.mc.free), k.trapSec) + SegmentPages(program), 5 + |program|)
    ensures k.heap == old(k.heap) && k.exhausted == old(k.exhausted) && k.ufree == old(k.ufree)
    ensures r.Done? ==>
      && k.Valid() && |k.spaces| == 1 && |k.spaces[0].regions| == 3 + |program|
      && k.spaces[0].regions[3..] == RegionsOf(program) && ProgramLoaded(k.mc.S(), program)
      && Contexts(k.mc.mem, k.spaces) == [FirstContext(entry)] && KernelRoot(k.mc.S()) == KernelRoot(old(k.mc.S()))
      && HasStack(k.mc.S())
  {
    hide Kernel.Valid, ImageOk, Born, Loading, Spaces.Inv, FirstContext, Fits, Shaped, SegmentPages, FirstPages,
      ProgramLoaded, KernelRoot, RegionsOf, HasStack;
    ghost var s0, first := k.mc.S(), FirstPages(k.mc.free, k.trapSec);
    NoSegments(s0, first, program);
    KernelParts(k);
    ghost var us;
    r, us := k.AllocProcess(0);
    if !r.Done? { return; }
    KernelParts(k);
    Fork.ContextFrame(k.mc.S(), k.spaces, k.trapSec, k.exhausted, 0);
    FirstLoading(k, program, s0, first, us);
    var i := 0;
    while i < |program|
      invariant 0 <= i <= |program| && Loading(k, program, i, s0, first)
      invariant k.heap == old(k.heap) && k.exhausted == old(k.exhausted) && k.ufree == old(k.ufree) && r.Done?
    {
      ProgramPrefix(s0, first, program, i + 1);
      r := LoadNext(k, program, i, s0, first);
      if !r.Done? { return; }
      i := i + 1;
    }
    assert program[..i] == program;
    LoadingDone(k, program, s0, first);
    SetEntry(k, program, entry);
  }

  lemma FirstLoading(k: Kernel, program: seq<Image>, s0: State, first: seq<nat>, us: nat)
    requires k.Valid() && |k.spaces| == 1 && k.spaces[0].regions == NewRegions(k.spaces[0].trapframe, k.trapSec)
    requires k.spaces[0].trapframe in k.mc.mem && NewContext(k.mc.mem[k.spaces[0].trapframe])
    requires Born(s0, k.mc.S(), [], k.spaces[0], k.trapSec, us) && Root(KernelTree) in s0.nodes
    requires Shaped(s0, k.mc.S(), 0, first, 5)
    ensures Loading(k, program, 0, s0, first)
  {
    hide Kernel.Valid, NewContext, Shaped, NewLeaves, LeavesStay, FramesStay, Spaces.RegionsOk, HasStack,
      Spaces.Inv;
    KernelParts(k);
    StackFrame(k, us);
    NewStack(k.mc.S(), k.spaces[0].trapframe, us, k.trapSec);
    assert first + SegmentPages(program[..0]) == first;
    assert k.spaces[0].regions[3..] == RegionsOf(program[..0]);
  }

  lemma StackFrame(k: Kernel, us: nat)
    requires Spaces.Inv(k.mc.S(), k.spaces, k.trapSec, k.exhausted) && us in k.mc.mem
    ensures us < PPN_LIMIT
  {
    hide TreesOk, FreeOk, LeavesOwned, TreesOwned, Spaces.SpaceOk, Spaces.OwnerOk, Spaces.CodeOk;
  }

  lemma LoadingDone(k: Kernel, program: seq<Image>, s0: State, first: seq<nat>)
    requires Loading(k, program, |program|, s0, first)
    ensures k.Valid() && |k.spaces| == 1 && |k.spaces[0].regions| == 3 + |program|
    ensures k.spaces[0].regions[3..] == RegionsOf(program) && ProgramLoaded(k.mc.S(), program)
    ensures k.spaces[0].trapframe in k.mc.mem && NewContext(k.mc.mem[k.spaces[0].trapframe])
    ensures (forall i :: 0 <= i < |program| ==> program[i].size < PAGE_SIZE)
    ensures Fits(s0, 0, first + SegmentPages(program), 5 + |program|) && KernelRoot(k.mc.S()) == KernelRoot(s0)
    ensures HasStack(k.mc.S())
  {
    hide Kernel.Valid, NewContext, Shaped, Fits, SegmentPages, RegionsOf, ProgramLoaded, HasStack;
    assert program[..|program|] == program;
    ShapedFits(s0, k.mc.S(), 0, first + SegmentPages(program), 5 + |program|);
  }

  /** The entry point goes to the first context. */
  method SetEntry(k: Kernel, ghost program: seq<Image>, entry: nat)
    requires k.Valid() && |k.spaces| == 1 && ProgramLoaded(k.mc.S(), program) && HasStack(k.mc.S())
    requires k.spaces[0].trapframe in k.mc.mem && NewContext(k.mc.mem[k.spaces[0].trapframe])
    modifies k.mc`mem
    ensures HasStack(k.mc.S())
    ensures k.Valid() && ProgramLoaded(k.mc.S(), program) && Contexts(k.mc.mem, k.spaces) == [FirstContext(entry)]
    ensures KernelRoot(k.mc.S()) == KernelRoot(old(k.mc.S()))
  {
    hide Kernel.Valid, NewContext, Spaces.Inv, FirstContext, SameLeaves, ProgramLoaded, HasStack;
    ghost var s := k.mc.S();
    KernelParts(k);
    Fork.ContextFrame(s, k.spaces, k.trapSec, k.exhausted, 0);
    var page := k.mc.mem[k.spaces[0].trapframe];
    k.SetContext(0, page[EPC_WORD := entry]);
    EntrySet(k.mc.mem, k.spaces, page, entry);
    StillLoaded(s, k.mc.S(), program);
    StackStays(s, k.mc.S());
  }

  /** Writing trapframes leaves the program alone. */
  lemma StillLoaded(s: State, s': State, program: seq<Image>)
    requires ProgramLoaded(s, program) && SameLeaves(s, s') && s'.roles == s.roles && s'.mem.Keys == s.mem.Keys
    requires forall g :: g in s.roles && g in s.mem && !s.roles[g].Trapframe? ==> s'.mem[g] == s.mem[g]
    ensures ProgramLoaded(s', program)
  {
    hide Load.Loaded, SameLeaves;
    forall i | 0 <= i < |program| ensures Load.Loaded(s', RegionOf(program[i]), program[i].content) {
      Load.LoadedStays(s, s', RegionOf(program[i]), program[i].content);
    }
  }

  lemma NoSegments(s: State, first: seq<nat>, program: seq<Image>)
    ensures first + SegmentPages(program[..0]) == first
    ensures Fits(s, 0, first + SegmentPages(program), 5 + |program|) ==> Fits(s, 0, first, 5)
  {
    hide Fits;
    assert first + SegmentPages(program[..0]) == first;
    ProgramPrefix(s, first, program, 0);
  }

  lemma EntrySet(m: Memory, spaces: seq<Space>, page: Page, entry: nat)
    requires |spaces| == 1 && |page| == ENTRIES && NewContext(page)
    requires spaces[0].trapframe in m && m[spaces[0].trapframe] == page[EPC_WORD := entry]
    ensures Contexts(m, spaces) == [FirstContext(entry)]
  {
    assert page[EPC_WORD := entry][..REGS] == FirstContext(entry).regs;
  }

  lemma KernelParts(k: Kernel)
    requires k.Valid()
    ensures Spaces.Inv(k.mc.S(), k.spaces, k.trapSec, k.exhausted) && Root(KernelTree) in k.mc.nodes
  {
  }

  lemma LoadKeepsContext(s: State, s': State, spaces: seq<Space>, trapSec: nat, exhausted: bool)
    requires Spaces.Inv(s, spaces, trapSec, exhausted) && |spaces| == 1 && Evolves(s, s', 0, {})
    ensures var tf := spaces[0].trapframe; tf in s.mem && tf in s'.mem && s'.mem[tf] == s.mem[tf]
  {
    hide Spaces.Inv, Evolves;
    UsesAreFrames(s, spaces, trapSec, exhausted);
    EvolvesKeepsContexts(s, s', 0);
    Fork.ContextFrame(s, spaces, trapSec, exhausted, 0);
  }

  method NewKernel(mc: Machine, trap: nat, ghost etext: nat) returns (k: Kernel)
    requires mc.Valid() && NoProcess(mc.S()) && Base(mc.S(), trap, mc.startAddr, mc.endAddr, etext)
    requires trap * PAGE_SIZE < mc.startAddr
    ensures fresh(k) && k.Valid() && k.mc == mc && k.spaces == [] && k.heap == [] && !k.exhausted
    ensures k.ufree == USER_HEAP_START && k.mc.S() == old(mc.S())
    ensures k.trapSec == trap && k.start == mc.startAddr && k.end == mc.endAddr && k.etext == etext
  {
    hide Base;
    k := new Kernel(mc, trap, etext);
  }

  // ---- boot ----

  /** Boot ends in user mode: memory for the kernel, and then for the first process. */
  ghost predicate Bootable(kernelEnd: nat, memSize: nat, trap: nat, program: seq<Image>) {
    && KernelFits(kernelEnd, memSize)
    && var left := PoolFrames(kernelEnd, memSize) - KERNEL_MAP_FRAMES;
       var tf := if left == 0 then 0 else RoundUp(kernelEnd) / PAGE_SIZE + left - 1;
       ProgramFits(left, tf, trap, program)
  }

  lemma BootableIs(free: seq<nat>, kernelEnd: nat, memSize: nat, trap: nat, program: seq<Image>, s: State)
    requires KernelFits(kernelEnd, memSize) && ListAfterBoot(free, kernelEnd, memSize) && s.free == free
    ensures Bootable(kernelEnd, memSize, trap, program) <==>
      && (forall i :: 0 <= i < |program| ==> program[i].size < PAGE_SIZE)
      && Fits(s, 0, FirstPages(free, trap) + SegmentPages(program), 5 + |program|)
  {
    hide PoolFrames, FitsIn, SegmentPages, RoundUp;
  }

  /**
   The state in which user mode begins: one process, in its first context, with its segments
   recorded and in memory, where it can run them, and with a stack; an unused heap; nothing lost.
   */
  ghost predicate Booted(x: Snap, kernelEnd: nat, memSize: nat, etext: nat, trap: nat, program: seq<Image>, entry: nat)
  {
    && x.cfg == Config(trap, RoundUp(kernelEnd), DRAM_BASE + Managed(memSize), etext)
    && |x.spaces| == 1 && |x.spaces[0].regions| == 3 + |program| && x.spaces[0].regions[3..] == RegionsOf(program)
    && ProgramLoaded(x.s, program) && x.view == Schedule.FirstView() && x.contexts == [FirstContext(entry)]
    && ProgramSeen(x, program) && StackSeen(x) && x.heap == [] && x.ufree == 0x40_0000 && !x.exhausted
  }

  /** The first instruction is fetched from the segment that holds the entry point. */
  lemma FirstFetch(x: Snap, kernelEnd: nat, memSize: nat, etext: nat, trap: nat, program: seq<Image>, entry: nat,
                   i: nat)
    requires Booted(x, kernelEnd, memSize, etext, trap, program, entry)
    requires i < |program| && entry / 4096 == program[i].va / 4096
    ensures var t := Runs.Seen(x, x.view.current, x.contexts[0].epc, Fetch);
      t.Address? && ForkMeaning.WordAt(x.s.mem, t.pa) == program[i].content[entry % 4096 / 8]
  {
    hide ProgramLoaded, StackSeen, RegionsOf, RoundUp, Runs.Seen, ForkMeaning.WordAt;
    assert program[i] == program[i] && Runs.Seen(x, 0, entry, Fetch) == Runs.Seen(x, 0, entry, Fetch);
  }

  /** s_start: memory, kernel map, process table, first program, and off to user mode. */
  method Start(ram: Memory, kernelEnd: nat, memSize: nat, etext: nat, trap: nat, program: seq<Image>, entry: nat,
               trapHandler: nat)
      returns (r: Outcome, os: Os?)
    requires forall f :: f in ram ==> 0 < f < PPN_LIMIT && |ram[f]| == ENTRIES
    requires forall f: nat :: DRAM_BASE <= f * PAGE_SIZE < DRAM_BASE + memSize ==> f in ram
    requires KERN_BASE < kernelEnd < WORD_LIMIT - PAGE_SIZE && memSize < WORD_LIMIT
    requires KERN_BASE <= etext <= PHYS_TOP && etext % PAGE_SIZE == 0
    requires trap in ram && trap * PAGE_SIZE < kernelEnd
    requires |program| <= REGION_SLOTS - 3 && forall i :: 0 <= i < |program| ==> ImageOk(program[i])
    ensures r.Done? || r.Halted?
    ensures r.Done? <==> Bootable(kernelEnd, memSize, trap, program)
    ensures r.Done? ==>
      && os != null && fresh(os) && fresh(os.k) && fresh(os.k.mc) && fresh(os.sched)
      && os.UserMode() && os.satp == MakeSatp(KernelRoot(os.k.mc.S()) * PAGE_SIZE)
      && Booted(os.Now(), kernelEnd, memSize, etext, trap, program, entry)
  {
    hide Well, LeafWord, IdentityLeaf, NoProcess, Base, Kernel.Valid, Machine.Valid, ImageOk, FirstContext,
      ListAfterBoot, Fits, FirstPages, SegmentPages, Bootable, RoundUp, KernelFits, ProgramLoaded, RegionsOf, Contexts,
      Os.CurrentArmed, Os.Valid, SameLeaves, HasStack, ProgramSeen, StackSeen, SnapOk, Os.Held;
    os := null;
    var mc, root;
    r, mc, root := InitMemory(ram, kernelEnd, memSize, etext, trap);
    if !r.Done? {
      BootNeedsKernel(kernelEnd, memSize, trap, program);
      return;
    }
    BootableIs(mc.free, kernelEnd, memSize, trap, program, mc.S());
    var k := NewKernel(mc, trap, etext);
    r := LoadProgram(k, program, entry);
    if !r.Done? { return; }
    var sched := new Scheduler.Scheduler();
    ghost var s := mc.S();
    os := new Os(k, sched, MakeSatp(root), trapHandler);
    ModeGivesTable(os);
    StillLoaded(s, mc.S(), program);
    StackStays(s, mc.S());
    os.ValidIsHeld();
    BootedSees(os.Now(), program);
  }

  lemma BootNeedsKernel(kernelEnd: nat, memSize: nat, trap: nat, program: seq<Image>)
    ensures Bootable(kernelEnd, memSize, trap, program) ==> KernelFits(kernelEnd, memSize)
  {
    hide ProgramFits, PoolFrames, RoundUp;
  }

  /**
   From reset, for every sequence of acts: boot succeeds exactly when it can; then the acts are
   performed one after the other, from the state boot leaves, until one of them ends the run for
   a stated reason; and as long as no act leaves the free list empty, every page of the pool has
   exactly one use in every state.
   */
  method BootAndRun(ram: Memory, kernelEnd: nat, memSize: nat, etext: nat, trap: nat, program: seq<Image>, entry: nat,
                    trapHandler: nat, acts: seq<Act>)
      returns (r: Outcome, os: Os?, count: nat, ending: Scheduler.Ending, ghost trace: seq<Snap>)
    requires forall f :: f in ram ==> 0 < f < PPN_LIMIT && |ram[f]| == ENTRIES
    requires forall f: nat :: DRAM_BASE <= f * PAGE_SIZE < DRAM_BASE + memSize ==> f in ram
    requires KERN_BASE < kernelEnd < WORD_LIMIT - PAGE_SIZE && memSize < WORD_LIMIT
    requires KERN_BASE <= etext <= PHYS_TOP && etext % PAGE_SIZE == 0
    requires trap in ram && trap * PAGE_SIZE < kernelEnd
    requires |program| <= REGION_SLOTS - 3 && forall i :: 0 <= i < |program| ==> ImageOk(program[i])
    requires forall i :: 0 <= i < |acts| ==> ActOk(acts[i])
    ensures (r.Done? || r.Halted?) && (r.Done? <==> Bootable(kernelEnd, memSize, trap, program))
    ensures r.Done? ==>
      && count <= |acts| && 0 < |trace| == (if ending == Scheduler.Back then count + 1 else count)
      && IsTrace(acts[..|trace| - 1], trace) && Booted(trace[0], kernelEnd, memSize, etext, trap, program, entry)
    ensures r.Done? && ending == Scheduler.Back ==>
      && os != null && os.UserMode() && trace[count] == os.Now()
      && (count < |acts| ==> Refused(acts[count], trace[count]))
    ensures r.Done? ==> (ending == Scheduler.Off <==> 0 < count && PowersOff(acts[count - 1], trace[count - 1]))
    ensures r.Done? && ending == Scheduler.Panicked ==>
      ActPanics(acts[count - 1], trace[count - 1]) || ActOpen(acts[count - 1], trace[count - 1])
    ensures r.Done? ==> forall i: nat, f: nat ::
      i < |trace| && InPool(RoundUp(kernelEnd), DRAM_BASE + Managed(memSize), f) && ListKept(trace, i) ==>
        ExactlyOne(UsesOf(trace[i].s, trace[i].spaces, f))
  {
    hide Os.CurrentArmed, Os.Valid, Bootable, ImageOk, IsTrace, FirstContext, RoundUp, InPool, ExactlyOne, ActOk,
      Contexts, UsesOf, PowersOff, ActPanics, ActOpen, Refused, ProgramLoaded, RegionsOf, ProgramSeen, StackSeen;
    count, ending, trace := 0, Scheduler.Back, [];
    r, os := Start(ram, kernelEnd, memSize, etext, trap, program, entry, trapHandler);
    if !r.Done? { return; }
    ModeGivesTable(os);
    count, ending, trace := os.RunAll(acts);
    forall i: nat, f: nat |
        i < |trace| && InPool(RoundUp(kernelEnd), DRAM_BASE + Managed(memSize), f) && ListKept(trace, i)
      ensures ExactlyOne(UsesOf(trace[i].s, trace[i].spaces, f))
    {
      Runs.OwnershipOverRuns(acts[..|trace| - 1], trace, i, f);
    }
  }

  lemma ModeGivesTable(os: Os)
    requires os.UserMode()
    ensures os.sched.Valid() && os.sched.V().current == os.k.current
  {
    hide Kernel.Valid, Schedule.Inv;
  }

  /** No act up to state i left the free list empty. */
  ghost predicate ListKept(trace: seq<Snap>, i: nat)
    requires i < |trace|
  {
    forall j :: 0 < j <= i ==> trace[j].s.free != []
  }

  // ---- the first fork ----

  /**
   A child of the first program: its code is the parent's own, to run and to read but not to
   store to; its data, below 2 GB, are the words of the segments in frames of its own, to load and store.
   */
  lemma FirstChild(x: Snap, y: Snap, kernelEnd: nat, memSize: nat, etext: nat, trap: nat, program: seq<Image>,
                   entry: nat, a: Act, i: nat, va: nat, access: Access)
    requires Booted(x, kernelEnd, memSize, etext, trap, program, entry) && SnapOk(x) && SnapOk(y)
    requires Calls.Calls(a, 68) && ActOk(a) && ActStep(a, x, y)
    requires i < |program| && ImageOk(program[i]) && va / 4096 == program[i].va / 4096
    requires program[i].code || (va < 0x8000_0000 && !access.Fetch?)
    ensures |y.spaces| == 2 && va % 4096 / 8 < |program[i].content|
    ensures var t, word := Runs.Seen(y, 1, va, access), program[i].content[va % 4096 / 8];
      if program[i].code && access.Store? then t == Fault
      else
        && t.Address? && ForkMeaning.WordAt(y.s.mem, t.pa) == word
        && (program[i].code ==> t == Runs.Seen(x, 0, va, access))
        && (!program[i].code ==> t.pa / 4096 in x.s.roles && x.s.roles[t.pa / 4096].Free?)
  {
    hide SnapOk, RoundUp, ProgramSeen, StackSeen, ProgramLoaded, Runs.Seen, ActStep, ForkMeaning.WordAt, FirstContext;
    var region := RegionOf(program[i]);
    assert va < WORD_LIMIT;
    Calls.ForkMeans(a, x, y);
    ForkStepOf(a, x, y);
    assert x.spaces[0].regions[3 + i] == x.spaces[0].regions[3..][i] == region;
    GivenSegment(x.spaces[0].regions, region, 3 + i, va);
    Runs.ForkedMeans(x, y, 0, region, va, access);
    SeenThere(x, y, program, i, va, access);
    if program[i].code { CodeStays(x, y, program, i, va); }
  }

  lemma ForkStepOf(a: Act, x: Snap, y: Snap)
    requires Calls.Calls(a, 68) && ActOk(a) && ActStep(a, x, y)
    ensures ForkStep(x, y, x.view.current)
  {
    hide ForkStep, ContextsAfter, Schedule.Run;
  }

  lemma GivenSegment(regions: seq<Region>, region: Region, k: nat, va: nat)
    requires 3 <= k < |regions| && regions[k] == region && va / 4096 == region.va / 4096 && region.npages == 1
    requires region.va % 4096 == 0 && region.va < WORD_LIMIT
    requires region.segment.CodeSegment? || (region.segment.DataSegment? && va < 0x8000_0000)
    ensures ForkMeaning.ForkedRegion(regions, region) && ForkMeaning.Gives(region, va / PAGE_SIZE)
  {
    assert regions[3..][k - 3] == region;
    if region.segment.DataSegment? {
      assert region.va < 0x8000_0000;
      ForkMeaning.OwnAddressIff(region, 0);
      assert Fork.DataVa(region, 0) / PAGE_SIZE == va / PAGE_SIZE;
    }
  }

  /** What the segment gives the child, in the words of the program. */
  lemma SeenThere(x: Snap, y: Snap, program: seq<Image>, i: nat, va: nat, access: Access)
    requires SnapOk(x) && SnapOk(y) && |x.spaces| == 1 && |y.spaces| == 2 && i < |program| && ProgramSeen(x, program)
    requires va / 4096 == program[i].va / 4096 && va < WORD_LIMIT
    requires ForkMeaning.ReadsAsParent(x.s, y.s, 0, 1, RegionOf(program[i]), va, access)
    ensures var t, u := Runs.Seen(y, 1, va, access), Runs.Seen(x, 0, va, access);
      && va < MAXVA && u.Address? && va % 4096 / 8 < |program[i].content|
      && ForkMeaning.WordAt(x.s.mem, u.pa) == program[i].content[va % 4096 / 8]
      && if program[i].code then t == if access.Store? then Fault else u
         else
           && t.Address? && ForkMeaning.WordAt(y.s.mem, t.pa) == ForkMeaning.WordAt(x.s.mem, u.pa)
           && t.pa / 4096 in x.s.roles && x.s.roles[t.pa / 4096].Free?
  {
    hide Base, Schedule.Inv, HeapOk, LeafWord, Translate, LookupPa, Spaces.Inv, UserMemory.Orderly, Permitted,
      ForkMeaning.WordAt, Sv39.Valid;
    Spaces.InvGives(x.s, x.spaces, x.cfg.trapSec, x.exhausted, 0);
    Spaces.InvGives(y.s, y.spaces, y.cfg.trapSec, y.exhausted, 1);
    assert program[i] == program[i] && Runs.Seen(x, 0, va, access).Address?;
    if va >= MAXVA { UpperSeen(x, va, access); }
    ForkMeaning.ByLeaf(x.s, |x.spaces|, x.cfg.trapSec, 0, va, access, true);
  }

  lemma UpperSeen(x: Snap, va: nat, access: Access)
    requires SnapOk(x) && x.spaces != [] && MAXVA <= va < WORD_LIMIT
    ensures Runs.Seen(x, 0, va, access).Fault?
  {
    hide Base, Schedule.Inv, HeapOk, LeafWord, Spaces.Inv, TreesOk, FreeOk, LeavesOwned, TreesOwned, Translate;
    Spaces.InvGives(x.s, x.spaces, x.cfg.trapSec, x.exhausted, 0);
    UpperHalfFaults(x.s, UserTree(0), va, access, true);
  }

  lemma CodeStays(x: Snap, y: Snap, program: seq<Image>, i: nat, va: nat)
    requires SnapOk(x) && x.spaces != [] && i < |program| && program[i].code && ProgramLoaded(x.s, program)
    requires WordsKept(x.s, y.s, {}) && va / 4096 == program[i].va / 4096 && va < MAXVA
    ensures forall access :: Runs.Seen(x, 0, va, access).Address? ==>
      ForkMeaning.WordAt(y.s.mem, Runs.Seen(x, 0, va, access).pa) ==
      ForkMeaning.WordAt(x.s.mem, Runs.Seen(x, 0, va, access).pa)
  {
    hide Base, Schedule.Inv, HeapOk, LeafWord, Translate, LookupPa, Spaces.Inv, UserMemory.Orderly, Permitted, FrameOf,
      Sv39.Valid, Readable, Writable, Executable, UserPage;
    Spaces.InvGives(x.s, x.spaces, x.cfg.trapSec, x.exhausted, 0);
    assert Load.Loaded(x.s, RegionOf(program[i]), program[i].content);
    forall access | Runs.Seen(x, 0, va, access).Address?
      ensures ForkMeaning.WordAt(y.s.mem, Runs.Seen(x, 0, va, access).pa) ==
        ForkMeaning.WordAt(x.s.mem, Runs.Seen(x, 0, va, access).pa)
    {
      ForkMeaning.ByLeaf(x.s, |x.spaces|, x.cfg.trapSec, 0, va, access, true);
      ForkMeaning.AddressParts(FrameOf(LeafWord(x.s, UserTree(0), va / PAGE_SIZE)), va % PAGE_SIZE);
    }
  }

  /** The word for satp selects Sv39, address space 0, and the frame of the table. */
  lemma SatpFields(root: nat)
    requires root / 4096 < 0x1000_0000_0000
    ensures MakeSatp(root) / 0x1000_0000_0000_0000 == 8 && MakeSatp(root) / 0x1000_0000_0000 % 0x1_0000 == 0
    ensures MakeSatp(root) % 0x1000_0000_0000 == root / 4096
  {
  }
}
