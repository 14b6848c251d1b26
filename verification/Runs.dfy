/**
 What every run of the kernel keeps (kernel/strap.c, kernel/syscall.c, kernel/pmm.c):
 ownership of frames, the heap, the kernel's map, and everything of a process that does not run.
 */
module Runs {
  import opened Words
  import opened Sv39
  import opened Layout
  import opened Pmm
  import opened Hardware
  import opened Kernel
  import opened Traps
  import opened Steps
  import opened System
  import opened Uses
  import Spaces
  import Shape
  import KernelMap
  import ForkMeaning
  import Schedule
  import Fork
  import Vmm
  import UserMemory
  import Load
  import Print
  import Ownership

  lemma TraceAt(acts: seq<Act>, trace: seq<Snap>, i: nat)
    requires IsTrace(acts, trace) && i <= |acts|
    ensures |trace| == |acts| + 1 && SnapOk(trace[i])
    ensures i < |acts| ==>
      ActOk(acts[i]) && ActStep(acts[i], trace[i], trace[i + 1]) && !ActPanics(acts[i], trace[i])
  {
    hide SnapOk, ActOk, ActStep, ActPanics;
  }

  lemma TraceSize(acts: seq<Act>, trace: seq<Snap>)
    requires IsTrace(acts, trace)
    ensures |trace| == |acts| + 1
  {
    hide SnapOk, ActOk, ActStep, ActPanics;
  }

  /** The only frame whose words an act may change: the one it frees or stores to. */
  ghost function Gone(a: Act, x: Snap): set<nat> {
    var pid := x.view.current;
    if IsFree(a) then {FrameOf(LeafWord(x.s, UserTree(pid), a.trap.regs[A1_WORD] / PAGE_SIZE))}
    else if a.Write? && pid < |x.spaces| then
      match Translate(x.s.mem, x.spaces[pid].root, a.va, Store, true)
      case Fault => {}
      case Address(pa) => {pa / PAGE_SIZE}
    else {}
  }

  /** What every step keeps, whoever makes it. */
  lemma StepKeeps(a: Act, x: Snap, y: Snap)
    requires ActOk(a) && ActStep(a, x, y) && SnapOk(x)
    ensures Keeps(x, y, x.view.current, Gone(a, x)) && |x.spaces| <= |y.spaces| && y.spaces[..|x.spaces|] == x.spaces
    ensures y.exhausted && !x.exhausted ==> y.s.free == []
    ensures if a.Raise? && IsCall(a.trap, SYS_ALLOCATE_PAGE)
      then y.heap == x.heap + [x.ufree] && y.ufree == Wrap(x.ufree + PAGE_SIZE)
      else y.heap == x.heap && y.ufree == x.ufree
  {
    hide Keeps, LeafChanged, SameLeaves, LeafWord, ContextsAfter, Schedule.Run, Spaces.CanGrant, Mapped,
      Shape.Shaped, Spaces.UserReadWrite, Wrap, Translate, SnapOk, FrameOf, Fork.PagesForked, Spaces.Handed;
    assert y.spaces == x.spaces ==> y.spaces[..|x.spaces|] == x.spaces;
    if a.Write? { StoreKeeps(a.va, a.value, x, y); }
  }

  lemma StoreKeeps(va: nat, value: nat, x: Snap, y: Snap)
    requires StoreStep(x, y, x.view.current, va, value) && SnapOk(x)
    ensures Keeps(x, y, x.view.current, Gone(Write(va, value), x))
  {
    hide LeafWord, Schedule.Inv, HeapOk, Base, Spaces.Inv, Translate;
    UsesAreFrames(x.s, x.spaces, x.cfg.trapSec, x.exhausted);
    assert forall g :: g in x.s.roles ==> g in x.s.mem.Keys;
  }

  /** That frame is the process's own, or, when the first process stores, code. */
  lemma GoneIsOwn(a: Act, x: Snap, y: Snap, f: nat)
    requires ActOk(a) && ActStep(a, x, y) && SnapOk(x) && f in Gone(a, x) && f in x.s.roles
    ensures
      var pid := x.view.current;
      match a
      case Raise(t) => IsCall(t, SYS_FREE_PAGE) && x.s.roles[f] == Private(pid, t.regs[A1_WORD] / PAGE_SIZE)
      case Write(va, _) =>
        x.s.roles[f] == Private(pid, va / PAGE_SIZE) || (pid == 0 && x.s.roles[f] == Code(va / PAGE_SIZE))
  {
    hide Keeps, LeafWord, Schedule.Inv, HeapOk, Base, Spaces.Inv, Translate, FrameOf, ContextsAfter, Schedule.Run,
      Spaces.CanGrant, SameLeaves, LeafChanged, Mapped, UserMemory.Orderly;
    if a.Write? {
      var pid := x.view.current;
      Spaces.InvGives(x.s, x.spaces, x.cfg.trapSec, x.exhausted, pid);
      var t := Translate(x.s.mem, x.spaces[pid].root, a.va, Store, true);
      Load.StoreTarget(x.s, |x.spaces|, x.cfg.trapSec, pid, a.va, t.pa);
    }
  }

  /** The scheduler does over the run exactly what the step machine says of its events. */
  lemma {:induction false} ViewsFollow(acts: seq<Act>, trace: seq<Snap>, i: nat)
    requires IsTrace(acts, trace) && i < |trace|
    ensures Schedule.Run(trace[0].view, EventsOf(acts[..i])) == Schedule.Runs(trace[i].view)
    ensures |trace[i].spaces| == |trace[0].spaces| + Schedule.Forks(EventsOf(acts[..i]))
  {
    hide SnapOk, ActOk, Schedule.Run, EventsOf, Schedule.Inv, IsTrace, Schedule.Forks;
    NoEvents(trace[0].view, acts);
    TraceSize(acts, trace);
    TraceAt(acts, trace, 0);
    if i > 0 {
      ViewsFollow(acts, trace, i - 1);
      TraceAt(acts, trace, i - 1);
      InRangeAt(trace[i - 1]);
      NextEvent(trace[0].view, trace[i - 1].view, acts, i - 1);
      ActView(acts[i - 1], trace[i - 1], trace[i]);
    }
    TraceAt(acts, trace, i);
    ProcessesCounted(trace[0], trace[i], EventsOf(acts[..i]));
  }

  lemma InRangeAt(x: Snap)
    requires SnapOk(x)
    ensures Schedule.InRange(x.view) && Schedule.Inv(x.view, |x.spaces|)
  {
    hide Spaces.Inv, Base, HeapOk;
  }

  lemma ActView(a: Act, x: Snap, y: Snap)
    requires ActOk(a) && ActStep(a, x, y)
    ensures Schedule.Run(x.view, ActEvents(a)) == Schedule.Runs(y.view)
  {
    hide MemoryStep, ContextsAfter, Translate, SameLeaves;
  }

  lemma ProcessesCounted(x: Snap, y: Snap, events: seq<Schedule.Event>)
    requires SnapOk(x) && SnapOk(y) && Schedule.Run(x.view, events) == Schedule.Runs(y.view)
    ensures |y.spaces| == |x.spaces| + Schedule.Forks(events)
  {
    hide Spaces.Inv, Base, HeapOk, Schedule.Inv, Schedule.Run, Schedule.Forks;
    InRangeAt(x);
    InRangeAt(y);
    CountForks(x.view, |x.spaces|, events);
  }

  // ---- ownership ----

  /** A page is lost only by an act that leaves the list empty. */
  lemma {:induction false} NothingLost(acts: seq<Act>, trace: seq<Snap>, i: nat)
    requires IsTrace(acts, trace) && i < |trace| && !trace[0].exhausted
    requires forall j :: 0 < j <= i ==> trace[j].s.free != []
    ensures !trace[i].exhausted && trace[i].cfg == trace[0].cfg
  {
    hide SnapOk, ActOk, ActStep, IsTrace;
    TraceSize(acts, trace);
    if i > 0 {
      NothingLost(acts, trace, i - 1);
      TraceAt(acts, trace, i - 1);
      StepKeeps(acts[i - 1], trace[i - 1], trace[i]);
    }
  }

  /**
   Frame ownership over every run: as long as no act leaves the free list empty, every page
   of the pool has exactly one use, in every state of the run.
   */
  lemma OwnershipOverRuns(acts: seq<Act>, trace: seq<Snap>, i: nat, f: nat)
    requires IsTrace(acts, trace) && i < |trace| && !trace[0].exhausted
    requires forall j :: 0 < j <= i ==> trace[j].s.free != []
    requires InPool(trace[0].cfg.start, trace[0].cfg.end, f)
    ensures ExactlyOne(UsesOf(trace[i].s, trace[i].spaces, f))
  {
    hide ActOk, ActStep, IsTrace, Spaces.Inv, Schedule.Inv, HeapOk, PoolInUse, ExactlyOne, InPool, TrapSection,
      IdentityMap;
    NothingLost(acts, trace, i);
    TraceSize(acts, trace);
    TraceAt(acts, trace, i);
    var x := trace[i];
    EveryPageHasOneUse(x.s, x.spaces, x.cfg.trapSec, x.cfg.start, x.cfg.end, f);
  }

  // ---- the heap ----

  lemma {:induction false} HeapOnlyGrows(acts: seq<Act>, trace: seq<Snap>, i: nat, j: nat)
    requires IsTrace(acts, trace) && i <= j < |trace|
    ensures |trace[i].heap| <= |trace[j].heap| && trace[j].heap[..|trace[i].heap|] == trace[i].heap
    decreases j - i
  {
    hide SnapOk, ActOk, ActStep, IsTrace, Wrap;
    TraceSize(acts, trace);
    if i < j {
      HeapOnlyGrows(acts, trace, i, j - 1);
      TraceAt(acts, trace, j - 1);
      StepKeeps(acts[j - 1], trace[j - 1], trace[j]);
    }
  }

  lemma HeapAt(x: Snap)
    requires SnapOk(x)
    ensures HeapOk(x.heap, x.ufree)
  {
    hide Spaces.Inv, Base, Schedule.Inv, HeapOk;
  }

  /** Heap addresses are answered in strictly increasing order, aligned, over all processes: none is ever repeated. */
  lemma HeapNeverRepeats(acts: seq<Act>, trace: seq<Snap>, i: nat, j: nat)
    requires IsTrace(acts, trace) && i < j < |acts|
    requires acts[i].Raise? && TrapOk(acts[i].trap) && IsCall(acts[i].trap, SYS_ALLOCATE_PAGE)
    requires acts[j].Raise? && TrapOk(acts[j].trap) && IsCall(acts[j].trap, SYS_ALLOCATE_PAGE)
    ensures var a := AnswerOf(acts[i].trap, trace[i].view, trace[i].ufree);
      var b := AnswerOf(acts[j].trap, trace[j].view, trace[j].ufree);
      a.Value? && b.Value? && a.value < b.value && a.value % PAGE_SIZE == 0 && USER_HEAP_START <= a.value
  {
    hide ActOk, ActStep, IsTrace, SnapOk, Keeps, ActPanics, Wrap;
    TraceSize(acts, trace);
    TraceAt(acts, trace, i);
    TraceAt(acts, trace, j);
    HeapAt(trace[j]);
    StepKeeps(acts[i], trace[i], trace[i + 1]);
    HeapOnlyGrows(acts, trace, i + 1, j);
    var k := |trace[i].heap|;
    assert trace[j].heap[k] == trace[j].heap[..k + 1][k] == trace[i].ufree;
  }

  // ---- the kernel's map ----

  /** What the kernel itself may do at an address: execute below etext, write above, read anywhere in its map. */
  predicate KernelMay(etext: nat, va: nat, access: Access) {
    && 0x8000_0000 <= va < 0x8800_0000
    && match access
       case Load => true
       case Store => etext <= va
       case Fetch => va < etext
  }

  lemma KernelReads(x: Snap, va: nat, access: Access)
    requires SnapOk(x) && va < WORD_LIMIT
    ensures Root(KernelTree) in x.s.nodes
    ensures Translate(x.s.mem, x.s.nodes[Root(KernelTree)], va, access, false) ==
      if KernelMay(x.cfg.etext, va, access) then Address(va) else Fault
  {
    hide Schedule.Inv, HeapOk, PoolInUse, TrapSection, LeafWord, KernelMap.IdentityLeaf, Translate, LookupPa,
      UserVaToPa, Sv39.Valid, TreesOk, FreeOk, Ownership.LeavesOwned, Ownership.TreesOwned, Spaces.SpaceOk,
      Spaces.OwnerOk, Spaces.CodeOk, Readable, Writable, Executable, UserPage, FrameOf, Sound;
    if va >= MAXVA {
      UpperHalfFaults(x.s, KernelTree, va, access, false);
    } else {
      var v := va / PAGE_SIZE;
      assert LeafWord(x.s, KernelTree, v) == KernelMap.IdentityLeaf(x.cfg.etext, v);
      KernelMap.IdentityLeafMeaning(x.cfg.etext, v);
      SoftwareAgreesWithHardware(x.s, KernelTree, va, access, false);
      PageBounds(va, x.cfg.etext);
    }
  }

  /** An aligned bound separates addresses as it separates their pages. */
  lemma PageBounds(va: nat, etext: nat)
    requires etext % PAGE_SIZE == 0
    ensures va / PAGE_SIZE * PAGE_SIZE < etext <==> va < etext
    ensures KERN_BASE <= va / PAGE_SIZE * PAGE_SIZE < PHYS_TOP <==> KERN_BASE <= va < PHYS_TOP
    ensures va / PAGE_SIZE * PAGE_SIZE + va % PAGE_SIZE == va
  {
  }

  /**
   In every state of every run the kernel's page table is still where it was, and the hart in
   supervisor mode translates through it as an identity map, text executable and the rest writable.
   */
  lemma KernelMapOverRuns(acts: seq<Act>, trace: seq<Snap>, i: nat, va: nat, access: Access)
    requires IsTrace(acts, trace) && i < |trace| && va < WORD_LIMIT
    ensures Root(KernelTree) in trace[0].s.nodes
    ensures Translate(trace[i].s.mem, trace[0].s.nodes[Root(KernelTree)], va, access, false) ==
      if KernelMay(trace[0].cfg.etext, va, access) then Address(va) else Fault
  {
    hide ActOk, ActStep, IsTrace, SnapOk, Translate, KernelMay;
    TraceSize(acts, trace);
    TraceAt(acts, trace, 0);
    TraceAt(acts, trace, i);
    KernelReads(trace[0], va, access);
    KernelReads(trace[i], va, access);
    ConfigStays(acts, trace, i, Root(KernelTree));
  }

  /** What boot fixed stays, and no table ever moves. */
  lemma {:induction false} ConfigStays(acts: seq<Act>, trace: seq<Snap>, i: nat, id: NodeId)
    requires IsTrace(acts, trace) && i < |trace| && id in trace[0].s.nodes
    ensures trace[i].cfg == trace[0].cfg && id in trace[i].s.nodes && trace[i].s.nodes[id] == trace[0].s.nodes[id]
  {
    hide SnapOk, ActOk, ActStep, IsTrace, WordsKept, LeafWord;
    TraceSize(acts, trace);
    if i > 0 {
      ConfigStays(acts, trace, i - 1, id);
      TraceAt(acts, trace, i - 1);
      StepKeeps(acts[i - 1], trace[i - 1], trace[i]);
    }
  }

  // ---- the way into the kernel ----

  /** What the trap vector needs of a process: its trapframe to load and store, and its own page to execute. */
  predicate TrapUses(cfg: Config, p: Ownership.Space, va: nat, access: Access) {
    || (va / 4096 == p.trapframe && !access.Fetch?)
    || (va / 4096 == cfg.trapSec && !access.Store?)
  }

  lemma EntryAt(x: Snap, p: nat, va: nat, access: Access)
    requires SnapOk(x) && p < |x.spaces| && TrapUses(x.cfg, x.spaces[p], va, access)
    ensures Translate(x.s.mem, x.spaces[p].root, va, access, false) == Address(va)
  {
    hide Base, Schedule.Inv, HeapOk, LeafWord, Translate, LookupPa, UserMemory.Orderly, Spaces.OwnerOk, Spaces.CodeOk,
      Sv39.Valid, FrameOf, UserPage, Readable, Writable, Executable, Spaces.RegionsOk;
    assert Spaces.SpaceOk(x.s, x.spaces, p);
    Spaces.SomeRegions(x.spaces[p].regions);
    TrapPage(x, p);
    var v := va / PAGE_SIZE;
    Fork.CodeBelow(x.s, x.cfg.trapSec, |x.spaces|, p, v);
    ForkMeaning.ByLeaf(x.s, |x.spaces|, x.cfg.trapSec, p, va, access, false);
  }

  /** The third region of a process is the trap section. */
  lemma TrapPage(x: Snap, p: nat)
    requires SnapOk(x) && p < |x.spaces| && |x.spaces[p].regions| >= 3 && Spaces.WayIn(x.s, x.spaces[p], p)
    ensures x.spaces[p].regions[2].va / PAGE_SIZE == x.cfg.trapSec
  {
    hide Base, Schedule.Inv, HeapOk, LeafWord, TreesOk, FreeOk, Spaces.OwnerOk, Spaces.CodeOk, Sv39.Valid, FrameOf,
      UserPage, Readable, Writable, Executable, Spaces.SpaceOk, Sound;
    assert Ownership.LeafOk(x.s, x.cfg.trapSec, p, x.spaces[p].regions[2].va / PAGE_SIZE);
  }

  /**
   In every state of every run a trap of any process finds its way in: through the tables of that
   process the hart in supervisor mode fetches the trap section, and loads and stores the trapframe, at
   their physical addresses.
   */
  lemma EntryOverRuns(acts: seq<Act>, trace: seq<Snap>, i: nat, p: nat, va: nat, access: Access)
    requires IsTrace(acts, trace) && i < |trace| && p < |trace[i].spaces|
    requires TrapUses(trace[0].cfg, trace[i].spaces[p], va, access)
    ensures Translate(trace[i].s.mem, trace[i].spaces[p].root, va, access, false) == Address(va)
  {
    hide SnapOk, ActOk, ActStep, IsTrace, Translate;
    TraceSize(acts, trace);
    TraceAt(acts, trace, 0);
    TraceAt(acts, trace, i);
    KernelReads(trace[0], 0, access);
    ConfigStays(acts, trace, i, Root(KernelTree));
    EntryAt(trace[i], p, va, access);
  }

  // ---- a process that does not run ----

  /** Process p is not the current one when any of the first i acts happens. */
  ghost predicate Sleeps(trace: seq<Snap>, p: nat, i: nat) {
    i < |trace| && forall j :: 0 <= j < i ==> trace[j].view.current != p
  }

  /** What a process has: its registers, its leaves and the words of its private pages. */
  ghost predicate SameBelongings(x: Snap, y: Snap, p: nat) {
    && p < |x.contexts| && p < |y.contexts| && y.contexts[p] == x.contexts[p]
    && (forall v: nat :: LeafWord(y.s, UserTree(p), v) == LeafWord(x.s, UserTree(p), v))
    && (forall g :: g in x.s.roles && x.s.roles[g].Private? && x.s.roles[g].pid == p ==>
          g in x.s.mem && g in y.s.mem && g in y.s.roles && y.s.mem[g] == x.s.mem[g] && y.s.roles[g] == x.s.roles[g])
  }

  lemma SleeperStep(a: Act, x: Snap, y: Snap, p: nat)
    requires ActOk(a) && ActStep(a, x, y) && SnapOk(x) && SnapOk(y) && p < |x.spaces| && x.view.current != p
    ensures SameBelongings(x, y, p)
  {
    hide Spaces.Inv, Base, Schedule.Inv, HeapOk, LeafWord, AnswerOf, After, EventOf, Schedule.Run, MemoryStep,
      Translate, SameLeaves, Gone;
    StepKeeps(a, x, y);
    forall g | g in x.s.roles && x.s.roles[g].Private? && x.s.roles[g].pid == p ensures g !in Gone(a, x) {
      if g in Gone(a, x) { GoneIsOwn(a, x, y, g); }
    }
  }

  lemma SameBelongingsTrans(x: Snap, y: Snap, z: Snap, p: nat)
    requires SameBelongings(x, y, p) && SameBelongings(y, z, p)
    ensures SameBelongings(x, z, p)
  {
    hide LeafWord;
  }

  /**
   A process that does not run finds its registers, its translations and its private pages
   as it left them, whatever the others do.
   */
  lemma {:induction false} SleeperUntouched(acts: seq<Act>, trace: seq<Snap>, p: nat, i: nat)
    requires IsTrace(acts, trace) && Sleeps(trace, p, i) && p < |trace[0].spaces|
    ensures p < |trace[i].spaces| && SameBelongings(trace[0], trace[i], p)
  {
    hide SnapOk, ActOk, ActStep, IsTrace, SameBelongings;
    TraceSize(acts, trace);
    TraceAt(acts, trace, 0);
    if i == 0 {
      Oneself(trace[0], p);
    } else {
      SleeperUntouched(acts, trace, p, i - 1);
      TraceAt(acts, trace, i - 1);
      TraceAt(acts, trace, i);
      StepKeeps(acts[i - 1], trace[i - 1], trace[i]);
      SleeperStep(acts[i - 1], trace[i - 1], trace[i], p);
      SameBelongingsTrans(trace[0], trace[i - 1], trace[i], p);
    }
  }

  lemma Oneself(x: Snap, p: nat)
    requires SnapOk(x) && p < |x.spaces|
    ensures SameBelongings(x, x, p)
  {
    hide Base, Schedule.Inv, HeapOk, LeafWord;
    UsesAreFrames(x.s, x.spaces, x.cfg.trapSec, x.exhausted);
    assert forall g :: g in x.s.roles ==> g in x.s.mem.Keys;
  }

  /** So the hart translates every address of the sleeper as before, for every access. */
  lemma SleeperTranslates(acts: seq<Act>, trace: seq<Snap>, p: nat, i: nat, va: nat, access: Access, user: bool)
    requires IsTrace(acts, trace) && Sleeps(trace, p, i) && p < |trace[0].spaces| && va < MAXVA
    ensures p < |trace[i].spaces| && Translate(trace[i].s.mem, trace[i].spaces[p].root, va, access, user) ==
      Translate(trace[0].s.mem, trace[0].spaces[p].root, va, access, user)
  {
    hide ActOk, ActStep, IsTrace, Base, Schedule.Inv, HeapOk, LeafWord, Translate, LookupPa, Permitted, Spaces.Inv;
    SleeperUntouched(acts, trace, p, i);
    TraceSize(acts, trace);
    TraceAt(acts, trace, 0);
    TraceAt(acts, trace, i);
    var x, y := trace[0], trace[i];
    Spaces.InvGives(x.s, x.spaces, x.cfg.trapSec, x.exhausted, p);
    Spaces.InvGives(y.s, y.spaces, y.cfg.trapSec, y.exhausted, p);
    ForkMeaning.ByLeaf(x.s, |x.spaces|, x.cfg.trapSec, p, va, access, user);
    ForkMeaning.ByLeaf(y.s, |y.spaces|, y.cfg.trapSec, p, va, access, user);
    assert LeafWord(y.s, UserTree(p), va / PAGE_SIZE) == LeafWord(x.s, UserTree(p), va / PAGE_SIZE);
  }

  // ---- words of user pages ----

  predicate StoresTo(a: Act, v: nat, k: nat) {
    a.Write? && a.va / PAGE_SIZE == v && a.va % PAGE_SIZE / 8 == k
  }

  predicate Frees(a: Act, v: nat) {
    IsFree(a) && a.trap.regs[A1_WORD] / PAGE_SIZE == v
  }

  /**
   The acts that may change word k of a user page: a store to it or a free of it, by its owner;
   for code, a store by the first process.
   */
  predicate Touches(a: Act, who: nat, role: Role, k: nat) {
    match role
    case Private(p, v) => who == p && (StoresTo(a, v, k) || Frees(a, v))
    case Code(v) => who == 0 && StoresTo(a, v, k)
    case _ => false
  }

  lemma WordStep(a: Act, x: Snap, y: Snap, f: nat, k: nat)
    requires ActOk(a) && ActStep(a, x, y) && SnapOk(x) && f in x.s.roles && Print.UserRole(x.s.roles[f])
    requires !Touches(a, x.view.current, x.s.roles[f], k)
    ensures f in y.s.roles && y.s.roles[f] == x.s.roles[f] && Entry(y.s.mem, f, k) == Entry(x.s.mem, f, k)
  {
    hide SnapOk, MemoryStep, Schedule.Run, ContextsAfter, Translate, LeafWord, SameLeaves, TreesKept;
    StepKeeps(a, x, y);
    if f in Gone(a, x) { GoneIsOwn(a, x, y, f); }
  }

  /** A word of a user page changes only by a store of a process that may, or by the owner's free, over every run. */
  lemma {:induction false} WordStays(acts: seq<Act>, trace: seq<Snap>, i: nat, j: nat, f: nat, k: nat)
    requires IsTrace(acts, trace) && i <= j < |trace| && f in trace[i].s.roles && Print.UserRole(trace[i].s.roles[f])
    requires forall m :: i <= m < j ==> !Touches(acts[m], trace[m].view.current, trace[i].s.roles[f], k)
    ensures f in trace[j].s.roles && trace[j].s.roles[f] == trace[i].s.roles[f]
    ensures Entry(trace[j].s.mem, f, k) == Entry(trace[i].s.mem, f, k)
    decreases j - i
  {
    hide SnapOk, ActOk, ActStep, IsTrace, Touches, Entry;
    TraceSize(acts, trace);
    if i < j {
      WordStays(acts, trace, i, j - 1, f, k);
      TraceAt(acts, trace, j - 1);
      WordStep(acts[j - 1], trace[j - 1], trace[j], f, k);
    }
  }

  /** A mapping stays until its process frees it. */
  lemma MappingStep(a: Act, x: Snap, y: Snap, p: nat, v: nat)
    requires ActOk(a) && ActStep(a, x, y) && SnapOk(x) && p < |x.spaces| && Mapped(x.s, UserTree(p), v)
    requires !(x.view.current == p && Frees(a, v))
    ensures LeafWord(y.s, UserTree(p), v) == LeafWord(x.s, UserTree(p), v)
  {
    hide SnapOk, Schedule.Run, ContextsAfter, Translate, LeafWord, Keeps, Shape.Shaped, Fork.PagesForked, FrameOf,
      Spaces.Handed, Spaces.UserReadWrite, Wrap, Sv39.Valid, Vmm.Missing;
    if a.Raise? && a.trap.cause == CAUSE_STORE_PAGE_FAULT {
      UserMemory.OnePageVacant(x.s, UserTree(x.view.current), a.trap.stval / PAGE_SIZE);
    }
  }

  lemma {:induction false} MappingStays(acts: seq<Act>, trace: seq<Snap>, i: nat, j: nat, p: nat, v: nat)
    requires IsTrace(acts, trace) && i <= j < |trace| && p < |trace[i].spaces| && Mapped(trace[i].s, UserTree(p), v)
    requires forall m :: i <= m < j ==> !(trace[m].view.current == p && Frees(acts[m], v))
    ensures p < |trace[j].spaces| && trace[j].spaces[p] == trace[i].spaces[p]
    ensures LeafWord(trace[j].s, UserTree(p), v) == LeafWord(trace[i].s, UserTree(p), v)
    decreases j - i
  {
    hide SnapOk, ActOk, ActStep, IsTrace, Frees, LeafWord, Sv39.Valid, Keeps;
    TraceSize(acts, trace);
    if i < j {
      MappingStays(acts, trace, i, j - 1, p, v);
      TraceAt(acts, trace, j - 1);
      StepKeeps(acts[j - 1], trace[j - 1], trace[j]);
      MappingStep(acts[j - 1], trace[j - 1], trace[j], p, v);
    }
  }

  /** What the hart makes of an access by process p. */
  ghost function Seen(x: Snap, p: nat, va: nat, access: Access): Translation
    requires p < |x.spaces|
  {
    Translate(x.s.mem, x.spaces[p].root, va, access, true)
  }

  /** Where process p finds the word at va, if it may store there: in a user page, through a leaf of its own. */
  lemma StoredPlace(x: Snap, va: nat, p: nat)
    requires SnapOk(x) && p < |x.spaces| && va < WORD_LIMIT
    requires Seen(x, p, va, Store).Address? && Seen(x, p, va, Store).pa / PAGE_SIZE in x.s.mem
    ensures va < MAXVA && Mapped(x.s, UserTree(p), va / PAGE_SIZE)
    ensures var pa := Seen(x, p, va, Store).pa;
      && pa % PAGE_SIZE == va % PAGE_SIZE && FrameOf(LeafWord(x.s, UserTree(p), va / PAGE_SIZE)) == pa / PAGE_SIZE
      && pa / PAGE_SIZE in x.s.roles && |x.s.mem[pa / PAGE_SIZE]| == ENTRIES
      && (x.s.roles[pa / PAGE_SIZE] == Private(p, va / PAGE_SIZE)
          || (p == 0 && x.s.roles[pa / PAGE_SIZE] == Code(va / PAGE_SIZE)))
  {
    hide Schedule.Inv, HeapOk, Base, Spaces.Inv, Translate, LeafWord, FrameOf, TreesOk, FreeOk, Sv39.Valid,
      Ownership.LeavesOwned, Ownership.TreesOwned;
    Spaces.InvGives(x.s, x.spaces, x.cfg.trapSec, x.exhausted, p);
    var pa := Seen(x, p, va, Store).pa;
    if va >= MAXVA { UpperHalfFaults(x.s, UserTree(p), va, Store, true); }
    Load.StoreTarget(x.s, |x.spaces|, x.cfg.trapSec, p, va, pa);
    assert pa / PAGE_SIZE in x.s.roles.Keys;
  }

  /** A lawful free never concerns a code page. */
  lemma FreesOwnPage(a: Act, x: Snap, y: Snap, v: nat, f: nat)
    requires ActOk(a) && ActStep(a, x, y) && Frees(a, v) && SnapOk(x)
    requires f in x.s.roles && FrameOf(LeafWord(x.s, UserTree(x.view.current), v)) == f
    ensures x.s.roles[f] == Private(x.view.current, v)
  {
    hide SnapOk, MemoryStep, Schedule.Run, ContextsAfter, Translate, LeafWord, FrameOf;
    GoneIsOwn(a, x, y, f);
  }

  /** A place in memory, as process p sees it, stays while nobody touches it. */
  lemma {:induction false} PlaceStays(acts: seq<Act>, trace: seq<Snap>, i: nat, j: nat, p: nat, v: nat, f: nat, k: nat)
    requires IsTrace(acts, trace) && i <= j < |trace| && p < |trace[i].spaces| && Mapped(trace[i].s, UserTree(p), v)
    requires FrameOf(LeafWord(trace[i].s, UserTree(p), v)) == f && f in trace[i].s.roles
    requires trace[i].s.roles[f] == Private(p, v) || trace[i].s.roles[f] == Code(v)
    requires forall m :: i <= m < j ==> !Touches(acts[m], trace[m].view.current, trace[i].s.roles[f], k)
    ensures p < |trace[j].spaces| && trace[j].spaces[p] == trace[i].spaces[p]
    ensures LeafWord(trace[j].s, UserTree(p), v) == LeafWord(trace[i].s, UserTree(p), v)
    ensures Entry(trace[j].s.mem, f, k) == Entry(trace[i].s.mem, f, k)
    decreases j - i
  {
    hide SnapOk, ActOk, ActStep, IsTrace, LeafWord, FrameOf, Sv39.Valid, Entry, StoresTo, Frees, ActPanics;
    TraceSize(acts, trace);
    WordStays(acts, trace, i, j, f, k);
    if i < j {
      PlaceStays(acts, trace, i, j - 1, p, v, f, k);
      WordStays(acts, trace, i, j - 1, f, k);
      TraceAt(acts, trace, j - 1);
      if trace[j - 1].view.current == p && Frees(acts[j - 1], v) {
        FreesOwnPage(acts[j - 1], trace[j - 1], trace[j], v, f);
      }
      MappingStays(acts, trace, j - 1, j, p, v);
    }
  }

  /**
   A program reads back what it stored: as long as no act touches the word, every access to its
   address leads to the same place, and the word there is the one stored, whatever else happens.
   */
  lemma StoredWordReadsBack(acts: seq<Act>, trace: seq<Snap>, i: nat, j: nat, access: Access)
    requires IsTrace(acts, trace) && i < j < |trace| && acts[i].Write?
    requires trace[i].view.current < |trace[i].spaces|
    requires var x, va := trace[i], acts[i].va;
      var t := Seen(x, x.view.current, va, Store);
      && t.Address?
      && forall m :: i < m < j && t.pa / PAGE_SIZE in x.s.roles ==>
           !Touches(acts[m], trace[m].view.current, x.s.roles[t.pa / PAGE_SIZE], va % PAGE_SIZE / 8)
    ensures var x, y, va, p := trace[i], trace[j], acts[i].va, trace[i].view.current;
      && p < |y.spaces| && Seen(y, p, va, access) == Seen(x, p, va, access)
      && ForkMeaning.WordAt(y.s.mem, Seen(x, p, va, Store).pa) == acts[i].value
  {
    hide SnapOk, IsTrace, Translate, LeafWord, FrameOf, Sv39.Valid, StoresTo, Frees, ActPanics, SameLeaves, Touches;
    TraceSize(acts, trace);
    TraceAt(acts, trace, i);
    TraceAt(acts, trace, i + 1);
    TraceAt(acts, trace, j);
    var x, z, y, va, p := trace[i], trace[i + 1], trace[j], acts[i].va, trace[i].view.current;
    var pa := Seen(x, p, va, Store).pa;
    StoredPlace(x, va, p);
    LeafOf(x.s, z.s, UserTree(p), va / PAGE_SIZE);
    PlaceStays(acts, trace, i + 1, j, p, va / PAGE_SIZE, pa / PAGE_SIZE, va % PAGE_SIZE / 8);
    SameTranslation(x, y, p, va, access);
  }

  lemma SameTranslation(x: Snap, y: Snap, p: nat, va: nat, access: Access)
    requires SnapOk(x) && SnapOk(y) && p < |x.spaces| && p < |y.spaces| && va < MAXVA
    requires LeafWord(y.s, UserTree(p), va / PAGE_SIZE) == LeafWord(x.s, UserTree(p), va / PAGE_SIZE)
    ensures Seen(y, p, va, access) == Seen(x, p, va, access)
  {
    hide Base, Schedule.Inv, HeapOk, LeafWord, Translate, LookupPa, Permitted, Spaces.Inv;
    Spaces.InvGives(x.s, x.spaces, x.cfg.trapSec, x.exhausted, p);
    Spaces.InvGives(y.s, y.spaces, y.cfg.trapSec, y.exhausted, p);
    ForkMeaning.ByLeaf(x.s, |x.spaces|, x.cfg.trapSec, p, va, access, true);
    ForkMeaning.ByLeaf(y.s, |y.spaces|, y.cfg.trapSec, p, va, access, true);
  }

  // ---- forks ----

  /** A fork leaves the page of the parent that it copies where and as it was. */
  lemma CopiedPageStays(x: Snap, y: Snap, pid: nat, v: nat)
    requires SnapOk(x) && SnapOk(y) && ForkStep(x, y, pid) && Fork.PageCopied(x.s, y.s, pid, |x.spaces|, v)
    requires Fork.BelowImage(v)
    ensures ForkMeaning.PageStays(x.s, y.s, pid, v)
  {
    hide SnapOk, LeafWord, FrameOf, Sv39.Valid, Spaces.UserReadWrite, Fork.PagesForked, Shape.Shaped;
    CopiedFromUserPage(x.s, y, pid, |x.spaces|, v);
    var w := LeafWord(x.s, UserTree(pid), v);
    assert LeafWord(y.s, UserTree(pid), v) == w;
    PlainLeaf(x, pid, v);
    assert FrameOf(w) in y.s.mem.Keys;
  }

  /**
   A fork during a run: the child is the next process; at every address that a region gives it,
   it reads what its parent had there before the call, and it runs the parent's code.
   */
  lemma ForkOverRuns(acts: seq<Act>, trace: seq<Snap>, i: nat, region: Ownership.Region, va: nat, access: Access)
    requires IsTrace(acts, trace) && i < |acts| && acts[i].Raise? && TrapOk(acts[i].trap)
    requires IsCall(acts[i].trap, SYS_FORK) && trace[i].view.current < |trace[i].spaces|
    requires ForkMeaning.ForkedRegion(trace[i].spaces[trace[i].view.current].regions, region)
    requires ForkMeaning.Gives(region, va / PAGE_SIZE) && (region.segment.CodeSegment? || !access.Fetch?)
    ensures |trace[i + 1].spaces| == |trace[i].spaces| + 1
    ensures var x, y := trace[i], trace[i + 1];
      ForkMeaning.ReadsAsParent(x.s, y.s, x.view.current, |x.spaces|, region, va, access)
  {
    hide SnapOk, IsTrace, LeafWord, ContextsAfter, Schedule.Run, Fork.PagesForked, Keeps, Shape.Shaped,
      ForkMeaning.ReadsAsParent, ForkMeaning.PageStays, ForkMeaning.Gives, ActPanics;
    TraceSize(acts, trace);
    TraceAt(acts, trace, i);
    TraceAt(acts, trace, i + 1);
    var x, y, pid := trace[i], trace[i + 1], trace[i].view.current;
    ForkedMeans(x, y, pid, region, va, access);
  }

  lemma ForkedMeans(x: Snap, y: Snap, pid: nat, region: Ownership.Region, va: nat, access: Access)
    requires SnapOk(x) && SnapOk(y) && ForkStep(x, y, pid)
    requires ForkMeaning.ForkedRegion(x.spaces[pid].regions, region) && ForkMeaning.Gives(region, va / PAGE_SIZE)
    requires region.segment.CodeSegment? || !access.Fetch?
    ensures ForkMeaning.ReadsAsParent(x.s, y.s, pid, |x.spaces|, region, va, access)
  {
    hide Base, Schedule.Inv, HeapOk, LeafWord, Fork.PagesForked, TreesKept, WordsKept, Shape.Shaped,
      UserMemory.Orderly, ForkMeaning.ReadsAsParent, ForkMeaning.PageStays, ForkMeaning.Gives, Fork.PageCopied,
      Spaces.OwnerOk, Spaces.CodeOk, ForkMeaning.ForkedRegion, Spaces.RegionsOk;
    assert Spaces.SpaceOk(x.s, x.spaces, pid);
    if !region.segment.CodeSegment? {
      ForkMeaning.GivenIsCopied(x.s, y.s, pid, |x.spaces|, x.spaces[pid].regions, region, va / PAGE_SIZE);
      CopiedPageStays(x, y, pid, va / PAGE_SIZE);
    }
    ForkMeaning.ForkedPageMeans(x.s, y.s, x.spaces, y.spaces, x.cfg.trapSec, x.exhausted, pid, region, va, access);
  }

  lemma PlainLeaf(x: Snap, pid: nat, v: nat)
    requires SnapOk(x) && pid < |x.spaces| && Sv39.Valid(LeafWord(x.s, UserTree(pid), v))
    ensures var f := FrameOf(LeafWord(x.s, UserTree(pid), v));
      f in x.s.mem <==> f in x.s.roles && x.s.roles[f].Plain()
  {
    hide Schedule.Inv, HeapOk, Base, LeafWord, FrameOf, Sv39.Valid, Sound, TreesOk, FreeOk, Spaces.SpaceOk,
      Spaces.OwnerOk, Spaces.CodeOk, Ownership.TreesOwned;
    assert Ownership.LeafOk(x.s, x.cfg.trapSec, pid, v);
    assert forall f :: f in x.s.roles <==> f in x.s.mem.Keys;
  }
}
