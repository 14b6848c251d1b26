/**
 What each trap means to the programs, in the numbers of kernel/syscall.h and kernel/riscv.h:
 who runs afterwards, what the caller finds in its registers, and what its memory is.
 */
module Calls {
  import opened Words
  import opened Sv39
  import opened Layout
  import opened Hardware
  import opened Kernel
  import opened Traps
  import opened Steps
  import opened System
  import Spaces
  import UserMemory
  import Vmm
  import Shape
  import Fork
  import ForkMeaning
  import Schedule
  import Runs
  import Ownership

  /** Call `number`: an ecall from user mode with the number in a0. */
  predicate Calls(a: Act, number: nat) {
    a.Raise? && |a.trap.regs| == 31 && a.trap.cause == 8 && a.trap.regs[9] == number
  }

  /** The caller resumes behind the call with the registers it had, and nobody else's registers change. */
  ghost predicate ResumesSilently(a: Act, x: Snap, y: Snap)
    requires a.Raise?
  {
    var p := x.view.current;
    && p < |x.contexts|
    && y.contexts == x.contexts[p := Saved(a.trap.regs, (a.trap.sepc + 4) % 0x1_0000_0000_0000_0000)]
  }

  /** The caller resumes behind the call with a0 set, and nobody else's registers change. */
  ghost predicate ResumesWith(a: Act, x: Snap, y: Snap, a0: nat)
    requires a.Raise? && |a.trap.regs| == 31
  {
    var p := x.view.current;
    && p < |x.contexts|
    && y.contexts ==
       x.contexts[p := Saved(a.trap.regs[9 := a0], (a.trap.sepc + 4) % 0x1_0000_0000_0000_0000)]
  }

  /** The current process goes behind all that wait, and the first of them runs. */
  ghost predicate GivesUp(x: Snap, y: Snap) {
    y.view.procs == x.view.procs && [y.view.current] + y.view.queue == x.view.queue + [x.view.current]
  }

  /** The step of the scheduler, if the act is one. */
  lemma ViewStep(a: Act, x: Snap, y: Snap)
    requires ActOk(a) && ActStep(a, x, y) && SnapOk(x)
    ensures Schedule.Inv(x.view, |x.spaces|) && Schedule.InRange(x.view)
    ensures ActEvents(a) == [] ==> y.view == x.view
    ensures |ActEvents(a)| == 1 ==> Schedule.Step(x.view, ActEvents(a)[0]) == Schedule.Runs(y.view)
  {
    hide SnapOk, MemoryStep, ContextsAfter, StoreStep, Schedule.Step, Schedule.Inv, ActEvents;
    ScheduleAt(x);
    OneEvent(x.view, |x.spaces|, ActEvents(a));
    Runs.ActView(a, x, y);
  }

  /** exit, call 65: the caller is a zombie for good, and the first of the queue runs; there is one. */
  lemma ExitMeans(a: Act, x: Snap, y: Snap)
    requires Calls(a, 65) && ActOk(a) && ActStep(a, x, y) && SnapOk(x)
    ensures var p := x.view.current;
      && x.view.queue != [] && p < |x.view.procs|
      && y.view == Schedule.View(x.view.procs[p := x.view.procs[p].(status := Schedule.Zombie)], x.view.queue[1..],
                                 x.view.queue[0])
  {
    hide SnapOk, ActStep, Schedule.Step, Schedule.Inv;
    ViewStep(a, x, y);
    Schedule.ExitInFull(x.view, |x.spaces|);
  }

  /** yield, call 69. */
  lemma YieldMeans(a: Act, x: Snap, y: Snap)
    requires Calls(a, 69) && ActOk(a) && ActStep(a, x, y) && SnapOk(x)
    ensures GivesUp(x, y) && ResumesSilently(a, x, y)
  {
    hide SnapOk, MemoryStep, Schedule.Step, Schedule.Inv, Schedule.Run;
    ViewStep(a, x, y);
    Schedule.YieldInFull(x.view, |x.spaces|);
    NoChild(x.contexts, a.trap, x.view, x.ufree);
  }

  lemma NoChild(c: seq<Saved>, t: Trap, v: Schedule.View, ufree: nat)
    requires TrapOk(t) && v.current < |c| && !(t.cause == 8 && t.regs[9] == 68)
    ensures ContextsAfter(c, t, v, ufree) == c[v.current := After(t, AnswerOf(t, v, ufree))]
  {
    hide After, AnswerOf;
    var all := c[v.current := After(t, AnswerOf(t, v, ufree))];
    assert all + [] == all;
  }

  /** wait, call 70: without a child it answers -1 at once; with one it gives up the processor and answers nothing. */
  lemma WaitMeans(a: Act, x: Snap, y: Snap)
    requires Calls(a, 70) && ActOk(a) && ActStep(a, x, y) && SnapOk(x)
    ensures |x.view.procs| == 32
    ensures if exists i :: 0 <= i < 32 && x.view.procs[i].parent == x.view.current
      then GivesUp(x, y) && ResumesSilently(a, x, y)
      else y.view == x.view && ResumesWith(a, x, y, 0xffff_ffff_ffff_ffff)
  {
    hide SnapOk, MemoryStep, Schedule.Step, Schedule.Inv, Schedule.Run, Schedule.HasChild;
    ViewStep(a, x, y);
    ChildIs(x.view);
    Schedule.WaitInFull(x.view, |x.spaces|, ActEvents(a)[0].pid);
    NoChild(x.contexts, a.trap, x.view, x.ufree);
  }

  /** fork, call 68: the child takes the next slot, with the caller as its parent, at the end of the queue. */
  lemma ForkMeans(a: Act, x: Snap, y: Snap)
    requires Calls(a, 68) && ActOk(a) && ActStep(a, x, y) && SnapOk(x)
    ensures var p, n, v := x.view.current, |x.spaces|, x.view;
      && p < n < 32 == |v.procs| && |y.spaces| == n + 1 && y.spaces[..n] == x.spaces
      && y.view == Schedule.View(v.procs[n := v.procs[n].(status := Schedule.Ready, parent := p)], v.queue + [n], p)
    ensures var p, n, epc := x.view.current, |x.spaces|, (a.trap.sepc + 4) % 0x1_0000_0000_0000_0000;
      && |x.contexts| == n
      && y.contexts == x.contexts[p := Saved(a.trap.regs[9 := n], epc)] + [Saved(a.trap.regs[9 := 0], epc)]
  {
    hide SnapOk, Schedule.Step, Schedule.Inv, Schedule.Run, Keeps, Shape.Shaped, Fork.PagesForked;
    ViewStep(a, x, y);
    Schedule.ForkInFull(x.view, |x.spaces|);
    Schedule.StepKeepsPartition(x.view, |x.spaces|, Schedule.Fork);
    Schedule.InvSize(x.view, |x.spaces|);
    Schedule.SlotsGiveFirstFree(x.view, |x.spaces|);
    ContextCount(x);
    assert a.trap.regs[9 := |x.spaces|][9 := 0] == a.trap.regs[9 := 0];
  }

  lemma ContextCount(x: Snap)
    requires SnapOk(x)
    ensures |x.contexts| == |x.spaces|
  {
    hide Spaces.Inv, Base, HeapOk, Schedule.Inv;
  }

  /** A timer tick: the third one charged to a process takes the processor away, the others are only counted. */
  lemma TimerMeans(a: Act, x: Snap, y: Snap)
    requires a.Raise? && a.trap.cause == 0x8000_0000_0000_0001 && ActOk(a) && ActStep(a, x, y) && SnapOk(x)
    ensures var p := x.view.current;
      && p < |x.view.procs| && p < |x.contexts| && y.contexts == x.contexts[p := Saved(a.trap.regs, a.trap.sepc)]
      && 0 <= x.view.procs[p].ticks <= 2
      && if x.view.procs[p].ticks < 2
         then y.view == x.view.(procs := x.view.procs[p := x.view.procs[p].(ticks := x.view.procs[p].ticks + 1)])
         else
           && y.view.procs == x.view.procs[p := x.view.procs[p].(ticks := 0)]
           && [y.view.current] + y.view.queue == x.view.queue + [p]
  {
    hide SnapOk, MemoryStep, Schedule.Step, Schedule.Inv, Schedule.Run;
    ViewStep(a, x, y);
    Schedule.TickInFull(x.view, |x.spaces|);
    NoChild(x.contexts, a.trap, x.view, x.ufree);
  }

  /** print, call 64: the caller goes on with a0 zero; no memory of a program changes. */
  lemma PrintMeans(a: Act, x: Snap, y: Snap)
    requires Calls(a, 64) && ActOk(a) && ActStep(a, x, y) && SnapOk(x)
    ensures y.view == x.view && ResumesWith(a, x, y, 0) && y.s.free == x.s.free && SameLeaves(x.s, y.s)
    ensures WordsKept(x.s, y.s, {})
  {
    hide SnapOk, Schedule.Step, Schedule.Inv, Schedule.Run, SameLeaves, TreesKept, WordsKept;
    ViewStep(a, x, y);
    NoChild(x.contexts, a.trap, x.view, x.ufree);
  }

  /** A page the process may load from and store to, all of it in one frame. */
  ghost predicate Usable(y: Snap, p: nat, v: nat, f: nat)
    requires p < |y.spaces|
  {
    forall va: nat, access: Access :: va / 4096 == v && !access.Fetch? ==>
      Runs.Seen(y, p, va, access) == Address(f * 4096 + va % 4096)
  }

  lemma ReadWriteIsUsable(y: Snap, p: nat, v: nat, f: nat)
    requires SnapOk(y) && p < |y.spaces| && f < PPN_LIMIT
    requires LeafWord(y.s, UserTree(p), v) == Spaces.UserReadWrite(f * PAGE_SIZE)
    ensures Usable(y, p, v, f)
  {
    hide Base, Schedule.Inv, HeapOk, LeafWord, Translate, LookupPa, Permitted, Spaces.Inv, Spaces.UserReadWrite,
      Sv39.Valid, FrameOf, UserMemory.Orderly;
    Spaces.InvGives(y.s, y.spaces, y.cfg.trapSec, y.exhausted, p);
    ForkMeaning.ReadWriteGranted(f);
    Fork.CodeBelow(y.s, y.cfg.trapSec, |y.spaces|, p, v);
    forall va: nat, access: Access | va / 4096 == v && !access.Fetch?
      ensures Runs.Seen(y, p, va, access) == Address(f * 4096 + va % 4096)
    {
      ForkMeaning.ByLeaf(y.s, |y.spaces|, y.cfg.trapSec, p, va, access, true);
    }
  }

  lemma FirstFrame(x: Snap)
    requires SnapOk(x) && x.s.free != []
    ensures 0 < x.s.free[0] < PPN_LIMIT && Link(x.s.free, 0) == x.s.free[0] * PAGE_SIZE
  {
    hide Base, Schedule.Inv, HeapOk, TreesOk, Spaces.SpaceOk, Spaces.OwnerOk, Spaces.CodeOk;
    assert x.s.free[0] in x.s.free;
  }

  /**
   naive_malloc, call 66: the address in a0 starts a page that was not mapped and now is; the
   caller can load from and store to every address of it, in the frame that was first on the list.
   */
  lemma AllocateMeans(a: Act, x: Snap, y: Snap)
    requires Calls(a, 66) && ActOk(a) && ActStep(a, x, y) && SnapOk(x) && SnapOk(y)
    ensures y.view == x.view && x.view.current < |x.contexts| && ResumesWith(a, x, y, x.ufree)
    ensures var p, va := x.view.current, y.contexts[x.view.current].regs[9];
      && va % 4096 == 0 && !Mapped(x.s, UserTree(p), va / 4096) && Mapped(y.s, UserTree(p), va / 4096)
      && (x.s.free != [] ==> p < |y.spaces| && Usable(y, p, va / 4096, x.s.free[0]))
  {
    hide SnapOk, Schedule.Step, Schedule.Inv, Schedule.Run, Keeps, LeafWord, Spaces.Handed, Usable, LeafEntry,
      ProtToType;
    ViewStep(a, x, y);
    NoChild(x.contexts, a.trap, x.view, x.ufree);
    ContextCount(x);
    Runs.HeapAt(x);
    var p, v := x.view.current, x.ufree / PAGE_SIZE;
    assert LeafWord(y.s, UserTree(p), v) == Spaces.UserReadWrite(Link(x.s.free, 0));
    LeafValid(Link(x.s.free, 0), ProtToType(Spaces.READ_WRITE, true));
    if x.s.free != [] {
      FirstFrame(x);
      ReadWriteIsUsable(y, p, v, x.s.free[0]);
    }
  }

  /** naive_free, call 67: the page of the address in a1 is gone, every other leaf stays, and a0 is zero. */
  lemma FreeMeans(a: Act, x: Snap, y: Snap)
    requires Calls(a, 67) && ActOk(a) && ActStep(a, x, y) && SnapOk(x)
    ensures y.view == x.view && ResumesWith(a, x, y, 0)
    ensures var p, v := x.view.current, a.trap.regs[10] / 4096;
      && Mapped(x.s, UserTree(p), v) && !Mapped(y.s, UserTree(p), v)
      && (forall t, u: nat :: t != UserTree(p) || u != v ==> LeafWord(y.s, t, u) == LeafWord(x.s, t, u))
      && |y.s.free| == |x.s.free| + 1 && y.s.free[1..] == x.s.free
  {
    hide SnapOk, Schedule.Step, Schedule.Inv, Schedule.Run, Keeps, LeafWord, FrameOf, Sv39.Valid;
    ViewStep(a, x, y);
    NoChild(x.contexts, a.trap, x.view, x.ufree);
    FreedWasMapped(x, x.view.current, a.trap.regs[10] / 4096);
  }

  lemma FreedWasMapped(x: Snap, p: nat, v: nat)
    requires SnapOk(x)
    requires var f := FrameOf(LeafWord(x.s, UserTree(p), v)); f in x.s.roles && x.s.roles[f] == Private(p, v)
    ensures Mapped(x.s, UserTree(p), v)
  {
    hide Base, Schedule.Inv, HeapOk, TreesOk, FreeOk, LeafWord, FrameOf, Sv39.Valid, Spaces.SpaceOk, Spaces.OwnerOk,
      Spaces.CodeOk;
    assert Ownership.RoleOk(x.s, |x.spaces|, FrameOf(LeafWord(x.s, UserTree(p), v)));
  }

  /**
   A store page fault, cause 15: the program repeats the instruction that faulted, with its registers as they
   were; the page of the address can then be used, in the frame that was first on the list.
   */
  lemma StoreFaultMeans(a: Act, x: Snap, y: Snap)
    requires a.Raise? && a.trap.cause == 15 && ActOk(a) && ActStep(a, x, y) && SnapOk(x) && SnapOk(y)
    ensures var p, v := x.view.current, a.trap.stval / 4096;
      && y.view == x.view && p < |x.contexts| && y.contexts == x.contexts[p := Saved(a.trap.regs, a.trap.sepc)]
      && (Spaces.CanGrant(x.s, UserTree(p), v) && x.s.free != [] ==>
            p < |y.spaces| && Usable(y, p, v, x.s.free[0]))
  {
    hide SnapOk, Schedule.Step, Schedule.Inv, Schedule.Run, Keeps, LeafWord, Spaces.Handed, Usable, Spaces.CanGrant,
      Spaces.UserReadWrite, SameLeaves;
    ViewStep(a, x, y);
    NoChild(x.contexts, a.trap, x.view, x.ufree);
    ContextCount(x);
    var p, v := x.view.current, a.trap.stval / 4096;
    if Spaces.CanGrant(x.s, UserTree(p), v) && x.s.free != [] {
      assert LeafWord(y.s, UserTree(p), v) == Spaces.UserReadWrite(Link(x.s.free, 0));
      FirstFrame(x);
      ReadWriteIsUsable(y, p, v, x.s.free[0]);
    }
  }

  /** A load page fault, cause 13, changes nothing: the program repeats the instruction. */
  lemma LoadFaultMeans(a: Act, x: Snap, y: Snap)
    requires a.Raise? && a.trap.cause == 13 && ActOk(a) && ActStep(a, x, y) && SnapOk(x)
    ensures y.view == x.view && x.view.current < |x.contexts|
    ensures y.contexts == x.contexts[x.view.current := Saved(a.trap.regs, a.trap.sepc)]
    ensures y.s.free == x.s.free && SameLeaves(x.s, y.s) && WordsKept(x.s, y.s, {})
  {
    hide SnapOk, Schedule.Step, Schedule.Inv, Schedule.Run, SameLeaves, TreesKept, WordsKept;
    ViewStep(a, x, y);
    NoChild(x.contexts, a.trap, x.view, x.ufree);
  }

  /** Every other cause, and every other call number, panics; so does no call of exit, yield or wait. */
  lemma PanicsByNumber(a: Act, x: Snap)
    requires a.Raise? && ActOk(a)
    ensures a.trap.cause !in {8, 13, 15, 0x8000_0000_0000_0001} ==> ActPanics(a, x)
    ensures a.trap.cause in {13, 0x8000_0000_0000_0001} ==> !ActPanics(a, x)
    ensures a.trap.cause == 8 && !(64 <= a.trap.regs[9] <= 70) ==> ActPanics(a, x)
    ensures a.trap.cause == 8 && a.trap.regs[9] in {65, 69, 70} ==> !ActPanics(a, x)
    ensures a.trap.cause == 15 ==>
      (ActPanics(a, x) <==>
         a.trap.stval >= 0x40_0000_0000 || Mapped(x.s, UserTree(x.view.current), a.trap.stval / 4096))
  {
    hide PrintPanics, FreeHalts, CanFork, Vmm.Vacant, Spaces.CanGrant, Mapped;
    UserMemory.OnePageVacant(x.s, UserTree(x.view.current), a.trap.stval / PAGE_SIZE);
  }
}
