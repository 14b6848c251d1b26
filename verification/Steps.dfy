/**
 The whole machine as a value, and what one trap or one store does to it: memory, leaves,
 heap and contexts (kernel/strap.c, kernel/syscall.c).
 */
module Steps {
  import opened Words
  import opened Sv39
  import opened Layout
  import opened Pmm
  import opened Vmm
  import opened Hardware
  import opened Ownership
  import opened Shape
  import opened Birth
  import opened Kernel
  import opened Traps
  import Spaces
  import UserMemory
  import Fork
  import Schedule
  import Print

  /** What boot fixed: the trap section, the pool and the end of the kernel's text. */
  datatype Config = Config(trapSec: nat, start: nat, end: nat, etext: nat)

  datatype Snap = Snap(
    cfg: Config, s: State, spaces: seq<Space>, exhausted: bool, heap: seq<nat>, ufree: nat,
    view: Schedule.View, contexts: seq<Saved>)

  /** Memory and scheduler are in order. */
  ghost predicate SnapOk(x: Snap) {
    && Spaces.Inv(x.s, x.spaces, x.cfg.trapSec, x.exhausted) && HeapOk(x.heap, x.ufree)
    && Base(x.s, x.cfg.trapSec, x.cfg.start, x.cfg.end, x.cfg.etext)
    && Schedule.Inv(x.view, |x.spaces|) && |x.contexts| == |x.spaces|
  }

  // ---- what stays ----

  /** Only the trees of pid and of a new process n change, and no table moves. */
  ghost predicate TreesKept(s: State, s': State, pid: nat, n: nat) {
    && (forall t, v: nat :: t != UserTree(pid) && t != UserTree(n) ==> LeafWord(s', t, v) == LeafWord(s, t, v))
    && (forall id :: id in s.nodes ==> id in s'.nodes && s'.nodes[id] == s.nodes[id])
  }

  /** Frames in use keep their use and, apart from trapframes, their words, except those in `gone`. */
  ghost predicate WordsKept(s: State, s': State, gone: set<nat>) {
    && s'.mem.Keys == s.mem.Keys
    && forall g :: g in s.roles && s.roles[g].Plain() && g !in gone ==>
         && g in s.mem && g in s'.mem && g in s'.roles && s'.roles[g] == s.roles[g]
         && (s.roles[g].Trapframe? || s'.mem[g] == s.mem[g])
  }

  lemma TreesKeptTrans(a: State, b: State, c: State, pid: nat, n: nat)
    requires TreesKept(a, b, pid, n) && TreesKept(b, c, pid, n)
    ensures TreesKept(a, c, pid, n)
  {
    hide LeafWord;
  }

  lemma WordsKeptAround(a: State, b: State, c: State, d: State, gone: set<nat>)
    requires WordsKept(a, b, {}) && WordsKept(b, c, gone) && WordsKept(c, d, {})
    ensures WordsKept(a, d, gone)
  {
  }

  lemma EvolvesKeeps(s: State, s': State, who: nat, pid: nat, n: nat)
    requires Evolves(s, s', who, {}) && s.roles.Keys == s.mem.Keys && (who == pid || who == n)
    ensures TreesKept(s, s', pid, n) && WordsKept(s, s', {})
  {
    hide LeafWord;
    forall g | g in s.roles && s.roles[g].Plain()
      ensures g in s.mem && g in s'.mem && g in s'.roles && s'.mem[g] == s.mem[g] && s'.roles[g] == s.roles[g]
    {
      assert g in s.mem.Keys && g in s'.mem.Keys && g in s'.roles.Keys;
    }
  }

  /** Only words of trapframes differ. */
  ghost predicate SameShape(s: State, s': State) {
    && s'.free == s.free && s'.nodes == s.nodes && s'.roles == s.roles && s'.mem.Keys == s.mem.Keys && SameLeaves(s, s')
    && (forall g :: g in s.roles && g in s.mem && !s.roles[g].Trapframe? ==> g in s'.mem && s'.mem[g] == s.mem[g])
  }

  ghost predicate Same(x: Snap, y: Snap) {
    y == x.(s := y.s, contexts := y.contexts) && SameShape(x.s, y.s) && x.s.roles.Keys == x.s.mem.Keys
  }

  lemma SameKeeps(s: State, s': State, pid: nat, n: nat)
    requires SameShape(s, s') && s.roles.Keys == s.mem.Keys
    ensures TreesKept(s, s', pid, n) && WordsKept(s, s', {})
  {
    hide LeafWord;
    forall g | g in s.roles && s.roles[g].Plain() ensures g in s.mem && g in s'.mem {
      assert g in s.mem.Keys && g in s'.mem.Keys;
    }
  }

  // ---- what changes ----

  ghost predicate Keeps(x: Snap, y: Snap, pid: nat, gone: set<nat>) {
    y.cfg == x.cfg && TreesKept(x.s, y.s, pid, |x.spaces|) && WordsKept(x.s, y.s, gone)
  }

  /** A page at the next heap address. */
  ghost predicate AllocStep(x: Snap, y: Snap, pid: nat) {
    var v := x.ufree / PAGE_SIZE;
    && Keeps(x, y, pid, {}) && y.spaces == x.spaces && y.exhausted == x.exhausted
    && y.heap == x.heap + [x.ufree] && y.ufree == Wrap(x.ufree + PAGE_SIZE)
    && !Mapped(x.s, UserTree(pid), v)
    && LeafChanged(x.s, y.s, UserTree(pid), v, Spaces.UserReadWrite(Link(x.s.free, 0)))
    && Spaces.Handed(x.s, y.s, pid, v)
  }

  /** A page at the faulting address; without a table for it, the page taken is lost. */
  ghost predicate FaultStep(x: Snap, y: Snap, pid: nat, v: nat) {
    && Keeps(x, y, pid, {}) && y.spaces == x.spaces && y.heap == x.heap && y.ufree == x.ufree
    && if Spaces.CanGrant(x.s, UserTree(pid), v) then
         && y.exhausted == x.exhausted && Spaces.Handed(x.s, y.s, pid, v)
         && LeafChanged(x.s, y.s, UserTree(pid), v, Spaces.UserReadWrite(Link(x.s.free, 0)))
       else
         y.exhausted == (x.exhausted || x.s.free != []) && y.s.free == [] && SameLeaves(x.s, y.s)
  }

  /** A page given back: its leaf is invalid, no other leaf changes, and its frame heads the list. */
  ghost predicate FreeStep(x: Snap, y: Snap, pid: nat, v: nat) {
    var f := FrameOf(LeafWord(x.s, UserTree(pid), v));
    && Keeps(x, y, pid, {f}) && y.spaces == x.spaces && y.heap == x.heap && y.ufree == x.ufree
    && y.exhausted == x.exhausted && f in x.s.roles && x.s.roles[f] == Private(pid, v)
    && !Mapped(y.s, UserTree(pid), v)
    && (forall t, u: nat :: t != UserTree(pid) || u != v ==> LeafWord(y.s, t, u) == LeafWord(x.s, t, u))
    && y.s.free == [f] + x.s.free
  }

  /** A new process with exactly the pages of its own and those its parent's regions give it, copied or shared. */
  ghost predicate ForkStep(x: Snap, y: Snap, pid: nat) {
    var n := |x.spaces|;
    && Keeps(x, y, pid, {}) && y.heap == x.heap && y.ufree == x.ufree && y.exhausted == x.exhausted
    && |y.spaces| == n + 1 && y.spaces[..n] == x.spaces && pid < n && y.spaces[n].parent == pid
    && (forall t, v: nat :: t != UserTree(n) ==> LeafWord(y.s, t, v) == LeafWord(x.s, t, v))
    && var regions := x.spaces[pid].regions;
    && Shaped(x.s, y.s, n, Fork.ChildPages(x.s.free, x.cfg.trapSec, regions), Fork.ChildFrames(regions))
    && Fork.PagesForked(x.s, y.s, pid, n, regions)
  }

  /** Nothing but contexts and scheduling. */
  ghost predicate StillStep(x: Snap, y: Snap, pid: nat) {
    && Keeps(x, y, pid, {}) && y.spaces == x.spaces && y.heap == x.heap && y.ufree == x.ufree
    && y.exhausted == x.exhausted && SameLeaves(x.s, y.s) && y.s.free == x.s.free
  }

  /** A store beyond memory, where the tables lead when a page was granted from an empty list. */
  ghost predicate StorePanics(x: Snap, pid: nat, va: nat) {
    && pid < |x.spaces|
    && var t := Translate(x.s.mem, x.spaces[pid].root, va, Store, true);
       t.Address? && t.pa / PAGE_SIZE !in x.s.mem
  }

  /** A store: nothing if the hart faults, otherwise one word of the frame it translates to. */
  ghost predicate StoreStep(x: Snap, y: Snap, pid: nat, va: nat, value: nat) {
    && y == x.(s := y.s) && SameLeaves(x.s, y.s) && pid < |x.spaces|
    && match Translate(x.s.mem, x.spaces[pid].root, va, Store, true)
       case Fault => y.s == x.s
       case Address(pa) =>
         var f, i := pa / PAGE_SIZE, va % PAGE_SIZE / 8;
         && f in x.s.mem && i < |x.s.mem[f]|
         && y.s == x.s.(mem := x.s.mem[f := Put(x.s.mem[f], i, value)])
  }

  ghost predicate MemoryStep(t: Trap, x: Snap, y: Snap, pid: nat)
    requires TrapOk(t)
  {
    if IsCall(t, SYS_ALLOCATE_PAGE) then AllocStep(x, y, pid)
    else if IsCall(t, SYS_FREE_PAGE) then FreeStep(x, y, pid, t.regs[A1_WORD] / PAGE_SIZE)
    else if IsCall(t, SYS_FORK) then ForkStep(x, y, pid)
    else if t.cause == CAUSE_STORE_PAGE_FAULT then FaultStep(x, y, pid, t.stval / PAGE_SIZE)
    else StillStep(x, y, pid)
  }

  // ---- writes to contexts before and after ----

  lemma LeafOf(s: State, s': State, t: Tree, v: nat)
    requires SameLeaves(s, s')
    ensures LeafWord(s', t, v) == LeafWord(s, t, v) && Mapped(s', t, v) == Mapped(s, t, v)
  {
  }

  lemma SameGrant(s: State, s': State, t: Tree, v: nat)
    requires SameShape(s, s')
    ensures Spaces.CanGrant(s', t, v) == Spaces.CanGrant(s, t, v) && Vacant(s', t, v, 1) == Vacant(s, t, v, 1)
  {
    hide LeafWord, Mapped;
    LeafOf(s, s', t, v);
    UserMemory.OnePageVacant(s, t, v);
    UserMemory.OnePageVacant(s', t, v);
  }

  lemma AroundKeeps(x: Snap, x1: Snap, y1: Snap, y: Snap, pid: nat, gone: set<nat>)
    requires Same(x, x1) && Keeps(x1, y1, pid, gone) && Same(y1, y)
    ensures Keeps(x, y, pid, gone)
  {
    hide TreesKept, WordsKept, SameShape;
    var n := |x.spaces|;
    SameKeeps(x.s, x1.s, pid, n);
    SameKeeps(y1.s, y.s, pid, n);
    TreesKeptTrans(x.s, x1.s, y1.s, pid, n);
    TreesKeptTrans(x.s, y1.s, y.s, pid, n);
    WordsKeptAround(x.s, x1.s, y1.s, y.s, gone);
  }

  lemma LeafChangedAround(a: State, b: State, c: State, d: State, t: Tree, v: nat, w: nat)
    requires SameLeaves(a, b) && LeafChanged(b, c, t, v, w) && SameLeaves(c, d)
    ensures LeafChanged(a, d, t, v, w)
  {
    hide LeafWord;
    forall t', u: nat ensures LeafWord(d, t', u) == if t' == t && u == v then w else LeafWord(a, t', u) {
      assert LeafWord(b, t', u) == LeafWord(a, t', u);
      assert LeafWord(c, t', u) == LeafWord(d, t', u);
    }
  }

  lemma SameLeavesAround(a: State, b: State, c: State, d: State)
    requires SameLeaves(a, b) && SameLeaves(b, c) && SameLeaves(c, d)
    ensures SameLeaves(a, d)
  {
    hide LeafWord;
    SameLeavesTrans(a, b, c);
    SameLeavesTrans(a, c, d);
  }

  lemma HandedAround(x: Snap, x1: Snap, y1: Snap, y: Snap, pid: nat, v: nat)
    requires Same(x, x1) && Spaces.Handed(x1.s, y1.s, pid, v) && Same(y1, y) && SnapOk(x)
    ensures Spaces.Handed(x.s, y.s, pid, v)
  {
    hide SameLeaves, Vmm.TablesFor, NodesAdded, Spaces.SpaceOk, Spaces.OwnerOk, Spaces.CodeOk, LeavesOwned, TreesOwned,
      TreesOk, Base, Schedule.Inv, HeapOk;
    if x.s.free != [] {
      var f := x.s.free[0];
      assert f in x.s.free && f in x.s.mem.Keys && f in x.s.roles.Keys && f in y1.s.mem.Keys && f in y.s.mem.Keys;
    }
  }

  lemma AroundAlloc(x: Snap, x1: Snap, y1: Snap, y: Snap, pid: nat)
    requires Same(x, x1) && AllocStep(x1, y1, pid) && Same(y1, y) && SnapOk(x)
    ensures AllocStep(x, y, pid)
  {
    hide Keeps, LeafChanged, SameLeaves, Mapped, Spaces.UserReadWrite, Spaces.Handed, SnapOk;
    HandedAround(x, x1, y1, y, pid, x.ufree / PAGE_SIZE);
    AroundKeeps(x, x1, y1, y, pid, {});
    LeafOf(x.s, x1.s, UserTree(pid), x.ufree / PAGE_SIZE);
    LeafChangedAround(x.s, x1.s, y1.s, y.s, UserTree(pid), x.ufree / PAGE_SIZE,
                      Spaces.UserReadWrite(Link(x.s.free, 0)));
  }

  lemma AroundFault(x: Snap, x1: Snap, y1: Snap, y: Snap, pid: nat, v: nat)
    requires Same(x, x1) && FaultStep(x1, y1, pid, v) && Same(y1, y) && SnapOk(x)
    ensures FaultStep(x, y, pid, v)
  {
    hide Keeps, LeafChanged, SameLeaves, Mapped, Spaces.UserReadWrite, Spaces.CanGrant, Spaces.Handed, SnapOk;
    AroundKeeps(x, x1, y1, y, pid, {});
    SameGrant(x.s, x1.s, UserTree(pid), v);
    if Spaces.CanGrant(x.s, UserTree(pid), v) {
      HandedAround(x, x1, y1, y, pid, v);
      LeafChangedAround(x.s, x1.s, y1.s, y.s, UserTree(pid), v, Spaces.UserReadWrite(Link(x.s.free, 0)));
    } else {
      SameLeavesAround(x.s, x1.s, y1.s, y.s);
    }
  }

  lemma AroundFree(x: Snap, x1: Snap, y1: Snap, y: Snap, pid: nat, v: nat)
    requires Same(x, x1) && FreeStep(x1, y1, pid, v) && Same(y1, y)
    ensures FreeStep(x, y, pid, v)
  {
    hide Keeps, LeafWord, FrameOf, Sv39.Valid;
    LeafOf(x.s, x1.s, UserTree(pid), v);
    AroundKeeps(x, x1, y1, y, pid, {FrameOf(LeafWord(x.s, UserTree(pid), v))});
    LeafOf(y1.s, y.s, UserTree(pid), v);
    forall t, u: nat | t != UserTree(pid) || u != v ensures LeafWord(y.s, t, u) == LeafWord(x.s, t, u) {
      assert LeafWord(y.s, t, u) == LeafWord(y1.s, t, u);
      assert LeafWord(x1.s, t, u) == LeafWord(x.s, t, u);
    }
  }

  lemma AroundFork(x: Snap, x1: Snap, y1: Snap, y: Snap, pid: nat)
    requires Same(x, x1) && ForkStep(x1, y1, pid) && Same(y1, y) && SnapOk(y1)
    ensures ForkStep(x, y, pid)
  {
    hide Keeps, LeafWord, Fork.ChildPages, Fork.ChildFrames, SnapOk, Fork.PagesForked, PagesExact, TablesExact, Tables;
    PagesForkedAround(x, x1, y1, y, pid);
    AroundKeeps(x, x1, y1, y, pid, {});
    var n := |x.spaces|;
    forall t, v: nat | t != UserTree(n) ensures LeafWord(y.s, t, v) == LeafWord(x.s, t, v) {
      assert LeafWord(y.s, t, v) == LeafWord(y1.s, t, v);
      assert LeafWord(x1.s, t, v) == LeafWord(x.s, t, v);
    }
    var regions := x.spaces[pid].regions;
    ShapedStays(x1.s, y1.s, y.s, n, Fork.ChildPages(x.s.free, x.cfg.trapSec, regions), Fork.ChildFrames(regions));
  }

  /** A copied page of a fork is none of the parent's trapframe: that lies above the addresses that data can have. */
  lemma CopiedFromUserPage(s0: State, y: Snap, pid: nat, n: nat, v: nat)
    requires SnapOk(y) && pid < |y.spaces| && Fork.PageCopied(s0, y.s, pid, n, v)
    requires Fork.BelowImage(v)
    ensures var f := FrameOf(LeafWord(y.s, UserTree(pid), v)); f in y.s.roles && !y.s.roles[f].Trapframe?
  {
    hide Schedule.Inv, HeapOk, LeafWord, FrameOf, Sv39.Valid, Sound, Spaces.UserReadWrite, IdentityMap, TrapSection,
      TreesOk, FreeOk, Spaces.SpaceOk, Spaces.OwnerOk, Spaces.CodeOk, TreesOwned;
    var f := FrameOf(LeafWord(y.s, UserTree(pid), v));
    assert LeafOk(y.s, y.cfg.trapSec, pid, v);
    assert f in y.s.mem.Keys && f in y.s.roles;
  }

  lemma CopyAround(s0: State, s1: State, y1: Snap, s: State, pid: nat, n: nat, v: nat)
    requires SnapOk(y1) && pid < |y1.spaces| && Fork.PageCopied(s1, y1.s, pid, n, v)
    requires s1.roles == s0.roles && SameShape(y1.s, s) && Fork.BelowImage(v)
    ensures Fork.PageCopied(s0, s, pid, n, v)
  {
    hide SnapOk, LeafWord, FrameOf, Sv39.Valid, Spaces.UserReadWrite;
    CopiedFromUserPage(s1, y1, pid, n, v);
    LeafOf(y1.s, s, UserTree(pid), v);
    LeafOf(y1.s, s, UserTree(n), v);
  }

  lemma PagesForkedAround(x: Snap, x1: Snap, y1: Snap, y: Snap, pid: nat)
    requires Same(x, x1) && Same(y1, y) && SnapOk(y1) && pid < |x.spaces| < |y1.spaces|
    requires Fork.PagesForked(x1.s, y1.s, pid, |x.spaces|, x.spaces[pid].regions)
    ensures Fork.PagesForked(x.s, y.s, pid, |x.spaces|, x.spaces[pid].regions)
  {
    hide SnapOk, LeafWord, Fork.PageCopied, Fork.DataVa, FrameOf, Sv39.Valid, LeafEntry, ProtToType;
    var n, regions := |x.spaces|, x.spaces[pid].regions;
    CopyAround(x.s, x1.s, y1, y.s, pid, n, Spaces.STACK_VPN);
    forall k | 3 <= k < |regions| ensures Fork.RegionForked(x.s, y.s, pid, n, regions[k]) {
      assert Fork.RegionForked(x1.s, y1.s, pid, n, regions[k]);
      RegionForkedAround(x, x1, y1, y, pid, regions[k]);
    }
  }

  lemma RegionForkedAround(x: Snap, x1: Snap, y1: Snap, y: Snap, pid: nat, region: Region)
    requires Same(x, x1) && Same(y1, y) && SnapOk(y1) && pid < |x.spaces| < |y1.spaces|
    requires Fork.RegionForked(x1.s, y1.s, pid, |x.spaces|, region)
    ensures Fork.RegionForked(x.s, y.s, pid, |x.spaces|, region)
  {
    hide SnapOk, LeafWord, Fork.PageCopied, Fork.DataVa, FrameOf, Sv39.Valid, LeafEntry, ProtToType;
    var n := |x.spaces|;
    if region.segment.DataSegment? {
      forall j: nat | j < region.npages
        ensures Fork.PageCopied(x.s, y.s, pid, n, Fork.DataVa(region, j) / PAGE_SIZE)
      {
        Fork.DataPageBelow(region, j);
        CopyAround(x.s, x1.s, y1, y.s, pid, n, Fork.DataVa(region, j) / PAGE_SIZE);
      }
    } else {
      LeafOf(y1.s, y.s, UserTree(pid), region.va / PAGE_SIZE);
      LeafOf(y1.s, y.s, UserTree(n), region.va / PAGE_SIZE);
    }
  }

  lemma AroundStill(x: Snap, x1: Snap, y1: Snap, y: Snap, pid: nat)
    requires Same(x, x1) && StillStep(x1, y1, pid) && Same(y1, y)
    ensures StillStep(x, y, pid)
  {
    hide Keeps, SameLeaves;
    AroundKeeps(x, x1, y1, y, pid, {});
    SameLeavesAround(x.s, x1.s, y1.s, y.s);
  }

  /** Saving contexts before and after a step shows only in the contexts. */
  lemma AroundStep(t: Trap, x: Snap, x1: Snap, y1: Snap, y: Snap, pid: nat)
    requires TrapOk(t) && Same(x, x1) && MemoryStep(t, x1, y1, pid) && Same(y1, y)
    requires SnapOk(x) && SnapOk(y1)
    ensures MemoryStep(t, x, y, pid)
  {
    hide Same, AllocStep, FreeStep, ForkStep, FaultStep, StillStep, IsCall, SnapOk;
    if IsCall(t, SYS_ALLOCATE_PAGE) { AroundAlloc(x, x1, y1, y, pid); }
    else if IsCall(t, SYS_FREE_PAGE) { AroundFree(x, x1, y1, y, pid, t.regs[A1_WORD] / PAGE_SIZE); }
    else if IsCall(t, SYS_FORK) { AroundFork(x, x1, y1, y, pid); }
    else if t.cause == CAUSE_STORE_PAGE_FAULT { AroundFault(x, x1, y1, y, pid, t.stval / PAGE_SIZE); }
    else { AroundStill(x, x1, y1, y, pid); }
  }

  // ---- when a trap panics ----

  /** naive_free panics: no table for the address, a misaligned address, or a frame outside the pool. */
  ghost predicate FreeHalts(s: State, pid: nat, va: nat, start: nat, end: nat) {
    || va >= 0x40_0000_0000 || NodeId(UserTree(pid), 0, va / PAGE_SIZE / ENTRIES) !in s.nodes || va % PAGE_SIZE != 0
    || !(start <= FrameOf(LeafWord(s, UserTree(pid), va / PAGE_SIZE)) * PAGE_SIZE < end)
  }

  /** The address print reads from: that of the entry for va, valid or not, or null. */
  ghost function PrintAddress(s: State, pid: nat, va: nat): nat {
    if NodeId(UserTree(pid), 0, va / PAGE_SIZE / ENTRIES) in s.nodes
    then ToAddress(LeafWord(s, UserTree(pid), va / PAGE_SIZE)) + va % PAGE_SIZE else 0
  }

  /** print panics beyond MAXVA, and on a text that runs out of what the kernel can read. */
  ghost predicate PrintPanics(s: State, pid: nat, va: nat) {
    va >= 0x40_0000_0000 || Print.TextRunsOff(s, PrintAddress(s, pid, va))
  }

  /** print returns after a text without conversions. */
  ghost predicate PrintReturns(s: State, pid: nat, va: nat) {
    va < 0x40_0000_0000 && Print.TextEnds(s, PrintAddress(s, pid, va))
  }

  ghost predicate Panics(t: Trap, x: Snap, pid: nat)
    requires TrapOk(t)
  {
    if t.cause == CAUSE_USER_ECALL then
      var number, arg := t.regs[A0_WORD], t.regs[A1_WORD];
      if number == SYS_PRINT then PrintPanics(x.s, pid, arg)
      else if number == SYS_ALLOCATE_PAGE then !Spaces.CanGrant(x.s, UserTree(pid), x.ufree / PAGE_SIZE)
      else if number == SYS_FREE_PAGE then FreeHalts(x.s, pid, arg, x.cfg.start, x.cfg.end)
      else if number == SYS_FORK then pid >= |x.spaces| || !CanFork(x.s, x.spaces, pid, x.cfg.trapSec)
      else number != SYS_EXIT && number != SYS_YIELD && number != SYS_WAIT
    else if t.cause == CAUSE_STORE_PAGE_FAULT then !Vacant(x.s, UserTree(pid), t.stval / PAGE_SIZE, 1)
    else t.cause != CAUSE_MTIMER_S_TRAP && t.cause != CAUSE_LOAD_PAGE_FAULT
  }

  /** Whether the trap panics is open: print with a conversion in its text, or with a text outside user pages. */
  ghost predicate Open(t: Trap, x: Snap, pid: nat)
    requires TrapOk(t)
  {
    var va := t.regs[A1_WORD];
    IsCall(t, SYS_PRINT) && !PrintPanics(x.s, pid, va) && !PrintReturns(x.s, pid, va)
  }

  /** A conversion anywhere in the text leaves the outcome open, even for a mapped buffer. */
  lemma ConversionIsOpen(t: Trap, x: Snap, pid: nat, n: nat)
    requires TrapOk(t) && t.cause == 8 && t.regs[9] == 64 && t.regs[10] < 0x40_0000_0000
    requires var pa := PrintAddress(x.s, pid, t.regs[10]);
      && Print.Letters(x.s.mem, pa, n) && Print.Reachable(x.s.mem, pa + n)
      && Print.ByteAt(x.s.mem, pa + n) == 0x25
    ensures Open(t, x, pid)
  {
    hide Print.Letters, Print.ByteAt, Print.InUserPages, PrintAddress;
    var pa := PrintAddress(x.s, pid, t.regs[A1_WORD]);
    forall k: nat | Print.Letters(x.s.mem, pa, k) && !Print.Letter(x.s.mem, pa + k) ensures k == n {
      Print.OneEnd(x.s.mem, pa, n, k);
    }
  }

  lemma SameFork(s: State, s': State, spaces: seq<Space>, parent: nat, trapSec: nat)
    requires SameShape(s, s') && parent < |spaces|
    ensures CanFork(s', spaces, parent, trapSec) == CanFork(s, spaces, parent, trapSec)
  {
    hide LeafWord, Sv39.Valid, FrameOf, Fork.ChildPages, Fork.ChildFrames, Tables;
    var regions := spaces[parent].regions;
    forall k | 0 <= k < |regions|
      ensures Fork.SourceFound(s', parent, regions[k]) == Fork.SourceFound(s, parent, regions[k])
    {
      SameSource(s, s', parent, regions[k]);
    }
  }

  lemma SameSource(s: State, s': State, parent: nat, region: Region)
    requires SameShape(s, s')
    ensures Fork.SourceFound(s', parent, region) == Fork.SourceFound(s, parent, region)
  {
    hide LeafWord, Sv39.Valid, FrameOf;
    assert s'.mem.Keys == s.mem.Keys;
    forall v: nat ensures Fork.Found(s', parent, v) == Fork.Found(s, parent, v) {
      LeafOf(s, s', UserTree(parent), v);
    }
  }

  lemma SamePrint(s: State, s': State, pid: nat, va: nat)
    requires SameShape(s, s')
    ensures PrintPanics(s', pid, va) == PrintPanics(s, pid, va) && PrintReturns(s', pid, va) == PrintReturns(s, pid, va)
  {
    hide LeafWord, SameLeaves, ToAddress, Print.TextEnds, Print.TextRunsOff;
    LeafOf(s, s', UserTree(pid), va / PAGE_SIZE);
    assert Print.SameUserPages(s, s');
    assert forall f :: f in s.mem.Keys <==> f in s'.mem.Keys;
    assert Print.SameUserPages(s', s);
    Print.TextStays(s, s', PrintAddress(s, pid, va));
    Print.TextStays(s', s, PrintAddress(s, pid, va));
  }

  /** Saving a context does not decide whether a trap panics. */
  lemma SamePanics(t: Trap, x: Snap, x1: Snap, pid: nat)
    requires TrapOk(t) && Same(x, x1)
    ensures Panics(t, x1, pid) == Panics(t, x, pid) && Open(t, x1, pid) == Open(t, x, pid)
  {
    hide LeafWord, SameLeaves, Spaces.CanGrant, Vacant, CanFork, FrameOf, PrintPanics, PrintReturns;
    SamePrint(x.s, x1.s, pid, t.regs[A1_WORD]);
    SameGrant(x.s, x1.s, UserTree(pid), x.ufree / PAGE_SIZE);
    SameGrant(x.s, x1.s, UserTree(pid), t.stval / PAGE_SIZE);
    LeafOf(x.s, x1.s, UserTree(pid), t.regs[A1_WORD] / PAGE_SIZE);
    if pid < |x.spaces| { SameFork(x.s, x1.s, x.spaces, pid, x.cfg.trapSec); }
  }
}
