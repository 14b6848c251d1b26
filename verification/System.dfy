/**
 The kernel as a machine driven by traps (kernel/strap.c, kernel/syscall.c, switch_to of
 kernel/process.c): process memory, the scheduler and the saved contexts together.
 */
module System {
  import opened Words
  import opened Sv39
  import opened Layout
  import opened Pmm
  import opened Vmm
  import opened Hardware
  import opened Ownership
  import opened Shape
  import opened Birth
  import opened Release
  import opened Load
  import opened Kernel
  import opened Traps
  import opened Steps
  import Spaces
  import Fork
  import Schedule
  import Scheduler
  import Print

  /** What a trap does to everything. */
  ghost predicate TrapStep(t: Trap, x: Snap, y: Snap)
    requires TrapOk(t)
  {
    && Schedule.Run(x.view, EventOf(t)) == Schedule.Runs(y.view)
    && x.view.current < |x.contexts| && y.contexts == ContextsAfter(x.contexts, t, x.view, x.ufree)
    && MemoryStep(t, x, y, x.view.current)
  }

  /** One act of the current program. */
  ghost predicate ActStep(a: Act, x: Snap, y: Snap)
    requires ActOk(a)
  {
    match a
    case Raise(t) => TrapStep(t, x, y)
    case Write(va, value) => StoreStep(x, y, x.view.current, va, value)
  }

  ghost predicate ActPanics(a: Act, x: Snap) {
    match a
    case Raise(t) => TrapOk(t) && Panics(t, x, x.view.current)
    case Write(va, _) => StorePanics(x, x.view.current, va)
  }

  /** Whether the act panics is open. */
  ghost predicate ActOpen(a: Act, x: Snap) {
    a.Raise? && TrapOk(a.trap) && Open(a.trap, x, x.view.current)
  }

  /** The exit, call 65, of the last process that has not exited. */
  predicate PowersOff(a: Act, x: Snap) {
    a.Raise? && |a.trap.regs| == 31 && a.trap.cause == 8 && a.trap.regs[9] == 65 && x.view.queue == []
  }

  lemma OffExactly(t: Trap, x: Snap, n: nat)
    requires TrapOk(t) && Schedule.Inv(x.view, n)
    ensures Schedule.Run(x.view, EventOf(t)).Shutdown? <==> PowersOff(Raise(t), x)
    ensures PowersOff(Raise(t), x) ==> !Panics(t, x, x.view.current) && !Open(t, x, x.view.current)
  {
    hide Schedule.Step, Schedule.Inv, PrintPanics, FreeHalts, CanFork, Vacant, Spaces.CanGrant;
    OneEvent(x.view, n, EventOf(t));
    Schedule.ExitInFull(x.view, n);
  }

  lemma ChildIs(v: Schedule.View)
    requires Schedule.InRange(v)
    ensures Schedule.HasChild(v) <==> exists i :: 0 <= i < 32 && v.procs[i].parent == v.current
  {
  }

  lemma OneEvent(v: Schedule.View, n: nat, events: seq<Schedule.Event>)
    requires Schedule.Inv(v, n) && |events| <= 1
    ensures Schedule.InRange(v) && Schedule.Run(v, []) == Schedule.Runs(v)
    ensures |events| == 1 ==> Schedule.Run(v, events) == Schedule.Step(v, events[0])
    ensures |events| == 1 && !events[0].Exit? ==> !Schedule.Step(v, events[0]).Shutdown?
  {
    hide Schedule.Step;
    if |events| == 1 {
      assert events[..0] == [];
      Schedule.StepKeepsPartition(v, n, events[0]);
    }
  }

  /** A call to free a page that may not be freed, or that the allocator would refuse. */
  ghost predicate Refused(a: Act, x: Snap) {
    && IsFree(a) && x.view.current < |x.spaces|
    && var pid, va := x.view.current, a.trap.regs[A1_WORD];
       CanFree(x.s, x.spaces[pid], pid, va / PAGE_SIZE) ==> FreeHalts(x.s, pid, va, x.cfg.start, x.cfg.end)
  }

  class Os {
    const k: Kernel
    const sched: Scheduler.Scheduler
    const satp: nat
    const handler: nat

    /** The end of s_start, with the first program loaded: it is dispatched. */
    constructor (kernel: Kernel, scheduler: Scheduler.Scheduler, kernelSatp: nat, trapHandler: nat)
      requires kernel.Valid() && |kernel.spaces| == 1
      requires scheduler.Valid() && scheduler.V() == Scheduler.EmptyTable()
      modifies kernel, kernel.mc, scheduler
      ensures k == kernel && sched == scheduler && satp == kernelSatp && handler == trapHandler
      ensures UserMode() && kernel.spaces == old(kernel.spaces) && kernel.current == 0
      ensures C() == old(Contexts(kernel.mc.mem, kernel.spaces))
      ensures kernel.heap == old(kernel.heap) && kernel.exhausted == old(kernel.exhausted)
      ensures kernel.ufree == old(kernel.ufree) && SameShape(old(kernel.mc.S()), kernel.mc.S())
      ensures scheduler.V() == Schedule.FirstView()
    {
      hide Kernel.Valid, Schedule.Inv, Scheduler.Scheduler.Valid, CurrentArmed, SameShape;
      k, sched, satp, handler := kernel, scheduler, kernelSatp, trapHandler;
      new;
      var _ := sched.Start();
      Resume();
      CurrentExists();
      ValidIsHeld();
      SwitchTo();
    }

    ghost predicate Valid()
      reads this, k, k.mc, sched
    {
      && k.Valid() && sched.Valid() && Schedule.Inv(sched.V(), |k.spaces|) && k.current == sched.current
      && ParentsAgree(sched.V().procs, k.spaces)
    }

    /** A user program runs, and the next trap finds its way into the kernel. */
    ghost predicate UserMode()
      reads this, k, k.mc, sched
    {
      Valid() && k.current < |k.spaces| && CurrentArmed()
    }

    ghost predicate CurrentArmed()
      reads this, k, k.mc, sched
      requires k.current < |k.spaces|
    {
      var p := k.spaces[k.current];
      p.trapframe in k.mc.mem && Armed(k.mc.mem[p.trapframe], p.kernelStack, satp, handler)
    }

    /** There is a current process, and every trapframe is in memory. */
    ghost predicate Held()
      reads this, k, k.mc
    {
      && k.current < |k.spaces|
      && forall p :: 0 <= p < |k.spaces| ==>
           k.spaces[p].trapframe in k.mc.mem && |k.mc.mem[k.spaces[p].trapframe]| == ENTRIES
    }

    ghost function C(): seq<Saved>
      reads k, k.mc
    {
      Contexts(k.mc.mem, k.spaces)
    }

    ghost function Now(): Snap
      reads this, k, k.mc, sched
      requires sched.Valid()
    {
      Snap(Config(k.trapSec, k.start, k.end, k.etext), k.mc.S(), k.spaces, k.exhausted, k.heap, k.ufree, sched.V(), C())
    }

    lemma CurrentExists()
      requires Valid()
      ensures sched.Valid() && k.current < |k.spaces| <= Schedule.NPROC
      ensures Schedule.FirstFree(sched.V().procs) == |k.spaces|
      ensures sched.V().current == k.current
    {
      hide Kernel.Valid;
      assert Schedule.SlotOk(sched.V().procs, |k.spaces|, k.current);
      Schedule.SlotsGiveFirstFree(sched.V(), |k.spaces|);
    }

    lemma ValidIsHeld()
      requires Valid()
      ensures sched.Valid() && Held() && SnapOk(Now()) && k.mc.roles.Keys == k.mc.mem.Keys
      ensures Now().view.current == k.current
    {
      hide Spaces.Inv, Machine.Valid, Schedule.Inv, HeapOk, Base, ParentsAgree;
      CurrentExists();
      forall p: nat | p < |k.spaces|
        ensures k.spaces[p].trapframe in k.mc.mem && |k.mc.mem[k.spaces[p].trapframe]| == ENTRIES
      {
        Fork.ContextFrame(k.mc.S(), k.spaces, k.trapSec, k.exhausted, p);
      }
      UsesAreFrames(k.mc.S(), k.spaces, k.trapSec, k.exhausted);
    }

    lemma OpenKernel()
      requires k.Valid()
      ensures k.mc.Valid() && Spaces.Inv(k.mc.S(), k.spaces, k.trapSec, k.exhausted)
    {
    }

    // ---- contexts ----

    /** Overwrite a trapframe; nothing else of the machine changes. */
    method WriteFrame(pid: nat, page: Page)
      requires pid < |k.spaces| && Held() && |page| == ENTRIES
      modifies k.mc`mem
      ensures Held() && k.mc.mem == old(k.mc.mem)[k.spaces[pid].trapframe := page]
      ensures old(Valid()) ==> Valid() && C() == old(C())[pid := ContextIn(page)] && Same(old(Now()), Now())
    {
      hide Kernel.Valid, Scheduler.Scheduler.Valid, Schedule.Inv, SameLeaves, ParentsAgree;
      ghost var s := k.mc.S();
      ghost var ok := Valid();
      if ok {
        OpenKernel();
        ContextWritten(s, k.spaces, k.trapSec, k.exhausted, pid, page);
        Fork.ContextFrame(s, k.spaces, k.trapSec, k.exhausted, pid);
        UsesAreFrames(s, k.spaces, k.trapSec, k.exhausted);
      }
      k.SetContext(pid, page);
    }

    /** Replace the saved context of a process. */
    method Save(pid: nat, c: Saved)
      requires pid < |k.spaces| && Held() && |c.regs| == REGS
      modifies k.mc`mem
      ensures Held()
      ensures old(Valid()) ==> Valid() && C() == old(C())[pid := c] && Same(old(Now()), Now())
    {
      hide Valid, Same;
      WriteFrame(pid, Renewed(k.mc.mem[k.spaces[pid].trapframe], c));
    }

    /** The kernel goes on with the process the scheduler picked. */
    method Resume()
      requires k.Valid()
      modifies k`current
      ensures k.Valid() && k.current == sched.current
    {
      hide Spaces.Inv, HeapOk, Machine.Valid, Base;
      k.current := sched.current;
    }

    /** switch_to: the trapframe is made ready for the next trap. */
    method SwitchTo()
      requires Held()
      modifies k.mc`mem
      ensures Held()
      ensures old(Valid()) ==> UserMode() && C() == old(C()) && Same(old(Now()), Now())
    {
      hide Valid, Same;
      var p := k.spaces[k.current];
      var page := Arm(k.mc.mem[p.trapframe], p.kernelStack, satp, handler);
      ghost var c := C();
      assert c[k.current := ContextIn(page)] == c;
      WriteFrame(k.current, page);
    }

    // ---- what a trap does ----

    /** The scheduler did what the events say, and the kernel is ready for the process it picked. */
    ghost predicate Stepped(ending: Scheduler.Ending, v: Schedule.View, events: seq<Schedule.Event>)
      reads this, k, k.mc, sched
    {
      match ending
      case Back => Valid() && Schedule.Run(v, events) == Schedule.Runs(sched.V())
      case Off => Schedule.Run(v, events).Shutdown?
      case Panicked => events == [] || events == [Schedule.Fork]
    }

    /** After a scheduling step other than fork. */
    method Land(ending: Scheduler.Ending, ghost e: Schedule.Event, ghost v: Schedule.View)
      requires k.Valid() && Schedule.Inv(v, |k.spaces|) && ParentsAgree(v.procs, k.spaces)
      requires !e.Fork? && sched.Reached(ending, Schedule.Step(v, e))
      modifies k`current
      ensures Stepped(ending, v, [e]) && ending != Scheduler.Panicked
      ensures ending == Scheduler.Back ==> k.current == sched.current
    {
      hide Kernel.Valid, Schedule.Inv, Schedule.Step, Schedule.Run, Scheduler.Scheduler.Valid, ParentsAgree;
      SchedulingStep(v, e, k.spaces);
      if ending == Scheduler.Back { Resume(); }
    }

    /** A step that does not concern the scheduler. */
    lemma Stay(v: Schedule.View)
      requires Valid() && v == sched.V()
      ensures Stepped(Scheduler.Back, v, [])
    {
      hide Kernel.Valid, Schedule.Inv, Scheduler.Scheduler.Valid, ParentsAgree;
    }

    /** Memory as it was. */
    lemma StillHere(x: Snap)
      requires sched.Valid() && k.mc.roles.Keys == k.mc.mem.Keys
      requires Now() == x.(view := Now().view)
      ensures StillStep(x, Now(), x.view.current)
    {
      SameKeepsHere(x.s, x.view.current, |x.spaces|);
    }

    lemma SameKeepsHere(s: State, pid: nat, n: nat)
      requires s.roles.Keys == s.mem.Keys
      ensures TreesKept(s, s, pid, n) && WordsKept(s, s, {}) && SameLeaves(s, s)
    {
      assert SameShape(s, s);
      SameKeeps(s, s, pid, n);
    }

    /** fork. */
    method ForkCall() returns (ending: Scheduler.Ending, pid: nat)
      requires Valid()
      modifies k, k.mc, sched
      ensures Stepped(ending, old(sched.V()), [Schedule.Fork]) && ending != Scheduler.Off
      ensures ending == Scheduler.Panicked <==>
        !(old(k.current) < |old(k.spaces)| && CanFork(old(k.mc.S()), old(k.spaces), old(k.current), k.trapSec))
      ensures ending == Scheduler.Back ==>
        && pid == Schedule.FirstFree(old(sched.V()).procs)
        && k.current == old(k.current) < |old(C())| && |old(C())[k.current].regs| == REGS
        && C() == old(C()) + [old(C())[k.current].(regs := old(C())[k.current].regs[A0_WORD := 0])]
        && ForkStep(old(Now()), Now(), k.current)
    {
      hide Kernel.Valid, Schedule.Inv, Schedule.Step, Schedule.Run, Scheduler.Scheduler.Valid, ParentsAgree,
        Fork.ForkDone, Fork.Grew, ForkStep, CanFork;
      CurrentExists();
      OpenKernel();
      SlotNeeded(k.mc.S(), k.spaces, k.current, k.trapSec);
      ghost var v, s, before, x := sched.V(), k.mc.S(), k.spaces, Now();
      var slot := sched.FreeSlot();
      if slot >= Schedule.NPROC { return Scheduler.Panicked, 0; }
      var r;
      r, pid := k.DoFork();
      if !r.Done? { return Scheduler.Panicked, 0; }
      sched.Enlist(slot);
      ForkingStep(v, before, k.spaces);
      ForkedContexts(s, k.mc.S(), before, k.spaces, k.trapSec, k.exhausted, k.current);
      UsesAreFrames(s, before, k.trapSec, k.exhausted);
      ForkIsStep(x, Now(), k.current);
      ending := Scheduler.Back;
    }

    /** naive_malloc. */
    method AllocateCall() returns (ending: Scheduler.Ending, va: nat)
      requires Valid()
      modifies k, k.mc
      ensures Stepped(ending, old(sched.V()), []) && ending != Scheduler.Off
      ensures ending == Scheduler.Panicked <==>
        !Spaces.CanGrant(old(k.mc.S()), UserTree(old(k.current)), old(k.ufree) / PAGE_SIZE)
      ensures ending == Scheduler.Back ==>
        && va == old(k.ufree) && k.current == old(k.current) && C() == old(C())
        && AllocStep(old(Now()), Now(), k.current)
    {
      hide Kernel.Valid, Schedule.Inv, Scheduler.Scheduler.Valid, ParentsAgree, Evolves, LeafChanged, LeafWord, Mapped,
        Spaces.UserReadWrite, ContextsKept, Spaces.CanGrant, TreesKept, WordsKept, Spaces.Handed;
      CurrentExists();
      OpenKernel();
      ghost var s := k.mc.S();
      var r;
      r, va := k.SysAllocatePage();
      if !r.Done? { return Scheduler.Panicked, va; }
      UsesAreFrames(s, k.spaces, k.trapSec, old(k.exhausted));
      EvolvesKeepsContexts(s, k.mc.S(), k.current);
      EvolvesKeeps(s, k.mc.S(), k.current, k.current, |k.spaces|);
      KeptContexts(s, k.mc.S(), k.spaces, k.trapSec, old(k.exhausted));
      Stay(old(sched.V()));
      ending := Scheduler.Back;
    }

    /** A store to an unmapped page. */
    method StoreFault(stval: nat) returns (ending: Scheduler.Ending)
      requires Valid() && stval < WORD_LIMIT
      modifies k, k.mc
      ensures Stepped(ending, old(sched.V()), []) && ending != Scheduler.Off
      ensures ending == Scheduler.Panicked <==> !Vacant(old(k.mc.S()), UserTree(old(k.current)), stval / PAGE_SIZE, 1)
      ensures ending == Scheduler.Back ==>
        k.current == old(k.current) && C() == old(C()) && FaultStep(old(Now()), Now(), k.current, stval / PAGE_SIZE)
    {
      hide Kernel.Valid, Schedule.Inv, Scheduler.Scheduler.Valid, ParentsAgree, Evolves, LeafChanged, LeafWord, Mapped,
        Spaces.UserReadWrite, ContextsKept, Spaces.CanGrant, TreesKept, WordsKept, Vacant, SameLeaves, Spaces.Handed;
      CurrentExists();
      OpenKernel();
      ghost var s := k.mc.S();
      var r := k.HandleStoreFault(stval);
      if !r.Done? { return Scheduler.Panicked; }
      UsesAreFrames(s, k.spaces, k.trapSec, old(k.exhausted));
      EvolvesKeepsContexts(s, k.mc.S(), k.current);
      EvolvesKeeps(s, k.mc.S(), k.current, k.current, |k.spaces|);
      KeptContexts(s, k.mc.S(), k.spaces, k.trapSec, old(k.exhausted));
      Stay(old(sched.V()));
      ending := Scheduler.Back;
    }

    /** naive_free: any accepted call returns; it keeps everything in order when the page may be freed. */
    method FreeCall(va: nat) returns (ending: Scheduler.Ending)
      requires Valid() && Held()
      modifies k.mc
      ensures ending != Scheduler.Off && Held()
      ensures ending == Scheduler.Panicked <==> FreeHalts(old(k.mc.S()), k.current, va, k.start, k.end)
      ensures ending == Scheduler.Back && CanFree(old(k.mc.S()), k.spaces[k.current], k.current, va / PAGE_SIZE) ==>
        Stepped(ending, old(sched.V()), []) && C() == old(C()) && FreeStep(old(Now()), Now(), k.current, va / PAGE_SIZE)
    {
      hide Kernel.Valid, Schedule.Inv, Scheduler.Scheduler.Valid, ParentsAgree, LeafWord, Mapped, ContextsKept,
        CanFree, FrameOf, PlainStay, TreesKept, WordsKept;
      OpenKernel();
      ghost var s := k.mc.S();
      var r := k.SysFreePage(va);
      if !r.Done? { return Scheduler.Panicked; }
      if CanFree(s, k.spaces[k.current], k.current, va / PAGE_SIZE) {
        KeptContexts(s, k.mc.S(), k.spaces, k.trapSec, k.exhausted);
        FreeKeeps(s, k.mc.S(), k.current, va / PAGE_SIZE, |k.spaces|);
        Stay(old(sched.V()));
      }
      ending := Scheduler.Back;
    }

    method ExitCall() returns (ending: Scheduler.Ending)
      requires Valid()
      modifies k`current, sched
      ensures Stepped(ending, old(sched.V()), [Schedule.Exit]) && C() == old(C()) && ending != Scheduler.Panicked
    {
      hide Kernel.Valid, Schedule.Inv, Schedule.Step, Stepped, ParentsAgree;
      ending := sched.SysUserExit();
      Land(ending, Schedule.Exit, old(sched.V()));
    }

    method YieldCall() returns (ending: Scheduler.Ending)
      requires Valid()
      modifies k`current, sched
      ensures Stepped(ending, old(sched.V()), [Schedule.Yield]) && C() == old(C()) && ending != Scheduler.Panicked
    {
      hide Kernel.Valid, Schedule.Inv, Schedule.Step, Stepped, ParentsAgree;
      ending := sched.SysUserYield();
      Land(ending, Schedule.Yield, old(sched.V()));
    }

    method WaitCall(pid: int) returns (ending: Scheduler.Ending, answer: Answer)
      requires Valid()
      modifies k`current, sched
      ensures Stepped(ending, old(sched.V()), [Schedule.Wait(pid)]) && C() == old(C()) && ending != Scheduler.Panicked
      ensures ending == Scheduler.Back ==>
        if exists i :: 0 <= i < 32 && old(sched.V()).procs[i].parent == old(sched.V()).current
        then answer == Silent else answer == Value(0xffff_ffff_ffff_ffff)
      ensures answer.Value? ==> k.current == old(k.current)
    {
      hide Kernel.Valid, Schedule.Inv, Stepped, ParentsAgree;
      var found;
      ending, found := sched.SysUserWait(pid);
      Land(ending, Schedule.Wait(pid), old(sched.V()));
      answer := if found then Silent else Value(WORD_LIMIT - 1);
    }

    method TimerTrap() returns (ending: Scheduler.Ending)
      requires Valid()
      modifies k`current, sched
      ensures Stepped(ending, old(sched.V()), [Schedule.Tick]) && C() == old(C()) && ending != Scheduler.Panicked
    {
      hide Kernel.Valid, Schedule.Inv, Schedule.Step, Stepped, ParentsAgree;
      ending := sched.Rrsched();
      Land(ending, Schedule.Tick, old(sched.V()));
    }

    /** print: the user's text is a format; what a conversion in it does is open. */
    method PrintCall(va: nat) returns (ending: Scheduler.Ending)
      requires Valid() && Held()
      ensures ending != Scheduler.Off
      ensures PrintPanics(k.mc.S(), k.current, va) ==> ending == Scheduler.Panicked
      ensures PrintReturns(k.mc.S(), k.current, va) ==> ending == Scheduler.Back
    {
      hide Schedule.Inv, Scheduler.Scheduler.Valid, Spaces.Inv, LeafWord, Machine.Valid, Base, HeapOk, UserVaToPa,
        Print.EndsAfter, Print.RunsOffAfter, Print.InUserPages;
      Spaces.InvGives(k.mc.S(), k.spaces, k.trapSec, k.exhausted, k.current);
      PrintReads(k.mc.S(), k.current, va);
      match UserVaToPa(k.mc.mem, k.spaces[k.current].root, va) {
        case Fault => ending := Scheduler.Panicked;
        case Address(pa) =>
          var reading, _ := Print.ReadText(k.mc.mem, pa);
          if reading == Print.Conversion {
            ending :| ending == Scheduler.Back || ending == Scheduler.Panicked;
          } else {
            ending := if reading == Print.Ended then Scheduler.Back else Scheduler.Panicked;
          }
      }
    }

    /** The program frees only pages it may free. */
    ghost predicate Lawful(t: Trap)
      reads this, k, k.mc, sched
      requires TrapOk(t)
    {
      IsCall(t, SYS_FREE_PAGE) ==>
        k.current < |k.spaces| && CanFree(k.mc.S(), k.spaces[k.current], k.current, t.regs[A1_WORD] / PAGE_SIZE)
    }

    /** A call did its step on memory, scheduler and contexts. */
    ghost predicate Served(ending: Scheduler.Ending, answer: Answer, t: Trap, x: Snap)
      reads this, k, k.mc, sched
      requires TrapOk(t)
    {
      && Stepped(ending, x.view, EventOf(t))
      && (ending == Scheduler.Back ==>
            && answer == AnswerOf(t, x.view, x.ufree) && (answer.Value? ==> k.current == x.view.current)
            && C() == x.contexts + Newborn(x.contexts, x.view.current, t)
            && MemoryStep(t, x, Now(), x.view.current))
    }

    /** What every call comes to. */
    ghost predicate Called(ending: Scheduler.Ending, answer: Answer, t: Trap, x: Snap, lawful: bool)
      reads this, k, k.mc, sched
      requires TrapOk(t)
    {
      && (Panics(t, x, x.view.current) ==> ending == Scheduler.Panicked)
      && (ending == Scheduler.Panicked ==> Panics(t, x, x.view.current) || Open(t, x, x.view.current))
      && (lawful ==> Served(ending, answer, t, x))
      && (ending == Scheduler.Back ==> Held())
      && (!lawful ==> ending != Scheduler.Off && answer == Value(0) && k.current == x.view.current)
    }

    method ServePrint(t: Trap) returns (ending: Scheduler.Ending, answer: Answer)
      requires Valid() && Held() && TrapOk(t) && IsCall(t, SYS_PRINT)
      modifies k, k.mc, sched
      ensures Called(ending, answer, t, old(Now()), true)
    {
      hide Valid, Schedule.Run, StillStep, PrintPanics, PrintReturns, Held, Contexts;
      ValidIsHeld();
      ghost var x := Now();
      ending := PrintCall(t.regs[A1_WORD]);
      if ending == Scheduler.Back { Stay(x.view); StillHere(x); }
      answer := Value(0);
    }

    method ServeAllocate(t: Trap) returns (ending: Scheduler.Ending, answer: Answer)
      requires Valid() && Held() && TrapOk(t) && IsCall(t, SYS_ALLOCATE_PAGE)
      modifies k, k.mc, sched
      ensures Called(ending, answer, t, old(Now()), true)
    {
      hide Valid, Schedule.Run, AllocStep, Spaces.CanGrant, Held, Contexts, FreeStep, ForkStep, FaultStep, StillStep,
        PrintPanics, PrintReturns, FreeHalts, CanFork, Vacant;
      ValidIsHeld();
      var va;
      ending, va := AllocateCall();
      if ending == Scheduler.Back { ValidIsHeld(); }
      answer := Value(va);
    }

    method ServeFree(t: Trap) returns (ending: Scheduler.Ending, answer: Answer)
      requires Valid() && Held() && TrapOk(t) && IsCall(t, SYS_FREE_PAGE)
      modifies k, k.mc, sched
      ensures Called(ending, answer, t, old(Now()), old(Lawful(t)))
    {
      hide Valid, Schedule.Run, FreeStep, FreeHalts, CanFree, Contexts;
      ValidIsHeld();
      ending := FreeCall(t.regs[A1_WORD]);
      answer := Value(0);
    }

    method ServeFork(t: Trap) returns (ending: Scheduler.Ending, answer: Answer)
      requires Valid() && Held() && TrapOk(t) && IsCall(t, SYS_FORK)
      modifies k, k.mc, sched
      ensures Called(ending, answer, t, old(Now()), true)
    {
      hide Valid, Schedule.Run, ForkStep, CanFork, Contexts, AllocStep, FreeStep, FaultStep, StillStep, PrintPanics,
        PrintReturns, Spaces.CanGrant, FreeHalts, Vacant;
      ValidIsHeld();
      var pid;
      ending, pid := ForkCall();
      if ending == Scheduler.Back { ValidIsHeld(); }
      answer := Value(pid);
    }

    /** Exit, yield and wait. */
    method ServeScheduling(t: Trap) returns (ending: Scheduler.Ending, answer: Answer)
      requires Valid() && Held() && TrapOk(t) && (IsCall(t, SYS_EXIT) || IsCall(t, SYS_YIELD) || IsCall(t, SYS_WAIT))
      modifies k, k.mc, sched
      ensures Called(ending, answer, t, old(Now()), true)
    {
      hide Valid, Schedule.Run, StillStep, Schedule.HasChild, Held, Contexts, Called, Stepped;
      ValidIsHeld();
      ghost var x := Now();
      ChildIs(x.view);
      answer := Silent;
      if t.regs[A0_WORD] == SYS_EXIT {
        ending := ExitCall();
      } else if t.regs[A0_WORD] == SYS_YIELD {
        ending := YieldCall();
      } else {
        ending, answer := WaitCall(ToInt(t.regs[A1_WORD]));
      }
      if ending == Scheduler.Back {
        SteppedIsValid(x.view, EventOf(t));
        ValidIsHeld();
        StillHere(x);
      }
      SchedulingServed(ending, answer, t, x);
    }

    lemma SteppedIsValid(v: Schedule.View, events: seq<Schedule.Event>)
      requires Stepped(Scheduler.Back, v, events)
      ensures Valid()
    {
      hide Valid, Schedule.Run;
    }

    lemma SchedulingServed(ending: Scheduler.Ending, answer: Answer, t: Trap, x: Snap)
      requires TrapOk(t) && (IsCall(t, SYS_EXIT) || IsCall(t, SYS_YIELD) || IsCall(t, SYS_WAIT))
      requires ending != Scheduler.Panicked && Stepped(ending, x.view, EventOf(t))
      requires ending == Scheduler.Back ==>
        && sched.Valid() && answer == AnswerOf(t, x.view, x.ufree) && (answer.Value? ==> k.current == x.view.current)
        && C() == x.contexts && Held() && StillStep(x, Now(), x.view.current)
      ensures Called(ending, answer, t, x, true)
    {
      hide Stepped, StillStep, Held, Contexts, Schedule.HasChild;
      assert x.contexts + [] == x.contexts;
    }

    /** do_syscall: when a call panics, and what it does otherwise, unless it frees a page that may not be freed. */
    method DoSyscall(t: Trap) returns (ending: Scheduler.Ending, answer: Answer)
      requires Valid() && Held() && TrapOk(t) && t.cause == CAUSE_USER_ECALL
      modifies k, k.mc, sched
      ensures Called(ending, answer, t, old(Now()), old(Lawful(t)))
    {
      hide Called, Valid, Held, CanFree;
      ValidIsHeld();
      ghost var x := Now();
      var number := t.regs[A0_WORD];
      if number == SYS_PRINT {
        ending, answer := ServePrint(t);
      } else if number == SYS_ALLOCATE_PAGE {
        ending, answer := ServeAllocate(t);
      } else if number == SYS_FREE_PAGE {
        ending, answer := ServeFree(t);
      } else if number == SYS_FORK {
        ending, answer := ServeFork(t);
      } else if number == SYS_EXIT || number == SYS_YIELD || number == SYS_WAIT {
        ending, answer := ServeScheduling(t);
      } else {
        ending, answer := Scheduler.Panicked, Silent;
        UnknownCall(t, x);
      }
    }

    lemma UnknownCall(t: Trap, x: Snap)
      requires TrapOk(t) && t.cause == CAUSE_USER_ECALL && !(SYS_PRINT <= t.regs[A0_WORD] <= SYS_WAIT)
      ensures Called(Scheduler.Panicked, Silent, t, x, true)
    {
      hide Held, MemoryStep;
    }

    lemma StillLawful(t: Trap, s: State)
      requires TrapOk(t) && SameLeaves(s, k.mc.S())
      ensures Lawful(t) <==> (IsCall(t, SYS_FREE_PAGE) ==>
        k.current < |k.spaces| && CanFree(s, k.spaces[k.current], k.current, t.regs[A1_WORD] / PAGE_SIZE))
    {
      hide LeafWord, Sv39.Valid;
      if IsCall(t, SYS_FREE_PAGE) && k.current < |k.spaces| {
        LeafOf(s, k.mc.S(), UserTree(k.current), t.regs[A1_WORD] / PAGE_SIZE);
      }
    }

    /** After later changes to saved contexts. */
    lemma StillStepped(v: Schedule.View, u: Schedule.View, events: seq<Schedule.Event>)
      requires Valid() && u == sched.V() && Schedule.Run(v, events) == Schedule.Runs(u)
      ensures Stepped(Scheduler.Back, v, events)
    {
      hide Kernel.Valid, Schedule.Inv, Schedule.Run, ParentsAgree;
    }

    /** The trap did its step, with the caller's context at x.view.current. */
    ghost predicate Handled(ending: Scheduler.Ending, t: Trap, x: Snap)
      reads this, k, k.mc, sched
      requires TrapOk(t)
    {
      Stepped(ending, x.view, EventOf(t)) && (ending == Scheduler.Back ==> TrapStep(t, x, Now()))
    }

    /** The answer of a call that returns goes to a0. */
    method Reply(t: Trap, pid: nat, answer: Answer, ghost x: Snap, ghost x1: Snap, ghost lawful: bool)
      requires Held() && TrapOk(t) && t.cause == CAUSE_USER_ECALL && pid == x.view.current < |x.contexts|
      requires answer.Value? ==> pid < |k.spaces|
      requires lawful ==> Served(Scheduler.Back, answer, t, x1) && Same(x, x1) && SnapOk(x)
      requires lawful ==> x1.contexts == x.contexts[pid := Saved(t.regs, Wrap(t.sepc + 4))]
      modifies k.mc`mem
      ensures Held() && (lawful ==> Handled(Scheduler.Back, t, x))
    {
      hide Valid, Schedule.Run, EventOf, AnswerOf, SameShape, ContextsAfter, Newborn, MemoryStep, Contexts, Held, Wrap,
        SnapOk;
      Answered(x.contexts, t, pid, answer, x.view, x.ufree);
      ghost var y1 := x;
      if lawful {
        ValidIsHeld();
        SameAsNow();
        y1 := Now();
      }
      if answer.Value? {
        Save(pid, Saved(t.regs[A0_WORD := answer.value], Wrap(t.sepc + 4)));
      }
      if lawful {
        StillStepped(x.view, y1.view, EventOf(t));
        AroundStep(t, x, x1, y1, Now(), pid);
      }
    }

    lemma SameAsNow()
      requires sched.Valid() && k.mc.roles.Keys == k.mc.mem.Keys
      ensures Same(Now(), Now())
    {
    }

    /** What handling a trap comes to. */
    ghost predicate Answers(ending: Scheduler.Ending, t: Trap, x: Snap, lawful: bool)
      reads this, k, k.mc, sched
      requires TrapOk(t)
    {
      && (Panics(t, x, x.view.current) ==> ending == Scheduler.Panicked)
      && (ending == Scheduler.Panicked ==> Panics(t, x, x.view.current) || Open(t, x, x.view.current))
      && (lawful ==> Handled(ending, t, x))
      && (ending == Scheduler.Back ==> Held())
      && (!lawful ==> ending != Scheduler.Off)
    }

    /** handle_syscall: the caller resumes behind the call, with the answer in a0. */
    method HandleSyscall(t: Trap) returns (ending: Scheduler.Ending)
      requires Valid() && Held() && TrapOk(t) && t.cause == CAUSE_USER_ECALL
      modifies k, k.mc, sched
      ensures Answers(ending, t, old(Now()), old(Lawful(t)))
    {
      hide Valid, Schedule.Run, CanFree, EventOf, AnswerOf, SameShape, SameLeaves, ContextsAfter, Newborn, Panics,
        MemoryStep, Contexts, Held, TrapStep, Open, SnapOk;
      ValidIsHeld();
      ghost var x, lawful := Now(), Lawful(t);
      var pid := k.current;
      HeldCurrent();
      Save(pid, Saved(t.regs, Wrap(t.sepc + 4)));
      ghost var x1 := Now();
      SameLeavesOf(x, x1);
      StillLawful(t, x.s);
      SamePanics(t, x, x1, pid);
      var answer;
      ending, answer := DoSyscall(t);
      if ending == Scheduler.Back {
        HeldCurrent();
        Reply(t, pid, answer, x, x1, lawful);
      }
    }

    lemma HeldCurrent()
      requires Held()
      ensures k.current < |k.spaces|
    {
    }

    lemma SameLeavesOf(x: Snap, y: Snap)
      requires Same(x, y)
      ensures SameLeaves(x.s, y.s)
    {
      hide SameLeaves;
    }

    /** Traps other than calls. */
    method OtherTrap(t: Trap) returns (ending: Scheduler.Ending)
      requires Valid() && Held() && TrapOk(t) && t.cause != CAUSE_USER_ECALL
      requires var x := Now(); x.view.current < |x.contexts| && x.contexts[x.view.current] == Saved(t.regs, t.sepc)
      modifies k, k.mc, sched
      ensures Answers(ending, t, old(Now()), true)
    {
      hide Valid, Schedule.Run, Contexts, FaultStep, StillStep, Vacant, Held, AllocStep, FreeStep, ForkStep,
        PrintPanics, PrintReturns, Spaces.CanGrant, FreeHalts, CanFork;
      ValidIsHeld();
      ghost var x := Now();
      SavedOnce(x.contexts, t, x.view, x.ufree);
      if t.cause == CAUSE_MTIMER_S_TRAP {
        ending := TimerTrap();
        if ending == Scheduler.Back { ValidIsHeld(); StillHere(x); }
      } else if t.cause == CAUSE_STORE_PAGE_FAULT {
        ending := StoreFault(t.stval);
        if ending == Scheduler.Back { ValidIsHeld(); }
      } else if t.cause == CAUSE_LOAD_PAGE_FAULT {
        Stay(x.view);
        StillHere(x);
        ending := Scheduler.Back;
      } else {
        ending := Scheduler.Panicked;
      }
    }

    /**
     smode_trap_handler: exactly when it panics, and, unless a page is freed that may not be,
     what it does to memory, scheduler and contexts.
     */
    method HandleTrap(t: Trap) returns (ending: Scheduler.Ending)
      requires UserMode() && TrapOk(t)
      modifies k, k.mc, sched
      ensures Answers(ending, t, old(Now()), old(Lawful(t)))
      ensures old(Lawful(t)) && ending == Scheduler.Back ==> UserMode()
    {
      hide Valid, Schedule.Run, CanFree, SameShape, SameLeaves, CurrentArmed, Contexts, Panics, Open, MemoryStep,
        ContextsAfter, Held, SnapOk;
      ValidIsHeld();
      ghost var x, lawful := Now(), Lawful(t);
      HeldCurrent();
      Save(k.current, Saved(t.regs, t.sepc));
      ghost var x1 := Now();
      SameLeavesOf(x, x1);
      StillLawful(t, x.s);
      SamePanics(t, x, x1, x.view.current);
      SavedTwice(x.contexts, t, x.view, x.ufree);
      if t.cause == CAUSE_USER_ECALL {
        ending := HandleSyscall(t);
      } else {
        ending := OtherTrap(t);
      }
      if ending == Scheduler.Back { Leave(t, x, x1, lawful); }
    }

    /** Back to user mode. */
    method Leave(ghost t: Trap, ghost x: Snap, ghost x1: Snap, ghost lawful: bool)
      requires Held() && TrapOk(t) && Same(x, x1) && x.view.current < |x.contexts| && |x1.contexts| == |x.contexts|
      requires lawful ==> Handled(Scheduler.Back, t, x1) && SnapOk(x)
      requires ContextsAfter(x1.contexts, t, x.view, x.ufree) == ContextsAfter(x.contexts, t, x.view, x.ufree)
      modifies k.mc`mem
      ensures Held() && (lawful ==> UserMode() && Handled(Scheduler.Back, t, x))
    {
      hide Valid, Schedule.Run, SameShape, CurrentArmed, Contexts, MemoryStep, ContextsAfter, Held, EventOf, SnapOk;
      if lawful { ValidIsHeld(); }
      ghost var y1 := if lawful then Now() else x;
      SwitchTo();
      if lawful {
        StillStepped(x.view, y1.view, EventOf(t));
        AroundStep(t, x, x1, y1, Now(), x.view.current);
      }
    }

    // ---- whole runs ----

    /** Whether the current process may free a page, decided from what the kernel has at hand. */
    method MayFree(va: nat) returns (ok: bool)
      requires Valid() && k.current < |k.spaces|
      ensures ok ==> CanFree(k.mc.S(), k.spaces[k.current], k.current, va / PAGE_SIZE)
      ensures !ok && CanFree(k.mc.S(), k.spaces[k.current], k.current, va / PAGE_SIZE) ==>
        FreeHalts(k.mc.S(), k.current, va, k.start, k.end)
    {
      hide Spaces.Inv, Machine.Valid, Schedule.Inv, LookupPa, LeafWord, Sv39.Valid, FrameOf, TrapSection, PoolInUse,
        IdentityMap, HeapOk;
      var p := k.spaces[k.current];
      if va >= MAXVA { return false; }
      var pa := LookupPa(k.mc.mem, p.root, va);
      Spaces.InvGives(k.mc.S(), k.spaces, k.trapSec, k.exhausted, k.current);
      Fork.LookupFinds(k.mc.S(), |k.spaces|, k.trapSec, k.current, va);
      ok := pa != 0 && pa / PAGE_SIZE != p.trapframe && va / PAGE_SIZE !in Spaces.CodePages(p.regions);
    }

    /** A store by the current program, to any address: tables, leaves, uses and contexts stay. */
    method UserWrite(va: nat, value: nat) returns (ending: Scheduler.Ending)
      requires UserMode() && va < WORD_LIMIT
      modifies k.mc
      ensures ending != Scheduler.Off && UserMode()
      ensures ending == Scheduler.Panicked <==> StorePanics(old(Now()), k.current, va)
      ensures Now().view == old(Now()).view && C() == old(C())
      ensures ending == Scheduler.Back ==> StoreStep(old(Now()), Now(), k.current, va, value)
    {
      hide Schedule.Inv, Scheduler.Scheduler.Valid, ParentsAgree, SameLeaves, Spaces.Inv, Translate, LeafWord, FrameOf,
        Machine.Valid, HeapOk, Base, ContextsKept;
      ghost var s := k.mc.S();
      var r := UserStore(k.mc, k.spaces[k.current].root, va, value, k.spaces, k.trapSec, k.exhausted, k.current);
      UsesAreFrames(s, k.spaces, k.trapSec, k.exhausted);
      BaseWith(s, k.mc.S(), k.trapSec, k.start, k.end, k.etext);
      StoreKeepsContexts(s, k.mc.S(), FrameOf(LeafWord(s, UserTree(k.current), va / PAGE_SIZE)));
      KeptContexts(s, k.mc.S(), k.spaces, k.trapSec, k.exhausted);
      StillArmed(s);
      ending := if r.Halted? then Scheduler.Panicked else Scheduler.Back;
    }

    lemma StillArmed(s: State)
      requires k.current < |k.spaces| && Spaces.Inv(s, k.spaces, k.trapSec, k.exhausted) && ContextsKept(s, k.mc.S())
      requires var p := k.spaces[k.current];
        p.trapframe in s.mem && Armed(s.mem[p.trapframe], p.kernelStack, satp, handler)
      ensures CurrentArmed()
    {
      hide Spaces.Inv;
      Fork.ContextFrame(s, k.spaces, k.trapSec, k.exhausted, k.current);
    }

    /** One act of the current program, unless it is a refused free. */
    method Perform(a: Act) returns (done: bool, ending: Scheduler.Ending)
      requires UserMode() && ActOk(a)
      modifies k, k.mc, sched
      ensures done && ending == Scheduler.Back ==> UserMode() && ActStep(a, old(Now()), Now())
      ensures done ==> (ending == Scheduler.Off <==> PowersOff(a, old(Now())))
      ensures done && ActPanics(a, old(Now())) ==> ending == Scheduler.Panicked
      ensures done && ending == Scheduler.Panicked ==> ActPanics(a, old(Now())) || ActOpen(a, old(Now()))
      ensures !done ==> Refused(a, old(Now())) && ending == Scheduler.Back && UserMode() && Now() == old(Now())
    {
      hide Valid, Schedule.Run, CurrentArmed, Panics, Open, MemoryStep, ContextsAfter, EventOf, StoreStep, StorePanics,
        CanFree, FreeHalts, Contexts;
      ValidIsHeld();
      if a.Raise? { ScheduleAt(Now()); OffExactly(a.trap, Now(), |k.spaces|); }
      match a {
        case Write(va, value) =>
          ending := UserWrite(va, value);
          done := true;
        case Raise(t) =>
          done := true;
          if IsCall(t, SYS_FREE_PAGE) {
            done := MayFree(t.regs[A1_WORD]);
            if !done { return false, Scheduler.Back; }
          }
          ending := HandleTrap(t);
      }
    }

    /**
     Any run: the states between the acts are all in order and each act does its step.
     No act of it panics; it ends early only when the machine is off, at an act that panics, at a
     print whose outcome is open, or at a refused free.
     */
    method RunAll(acts: seq<Act>) returns (count: nat, ending: Scheduler.Ending, ghost trace: seq<Snap>)
      requires UserMode() && forall i :: 0 <= i < |acts| ==> ActOk(acts[i])
      modifies k, k.mc, sched
      ensures 0 < |trace| == (if ending == Scheduler.Back then count + 1 else count) && count <= |acts|
      ensures trace[0] == old(Now()) && IsTrace(acts[..|trace| - 1], trace)
      ensures ending == Scheduler.Back ==>
        UserMode() && trace[count] == Now() && (count < |acts| ==> Refused(acts[count], trace[count]))
      ensures ending == Scheduler.Off <==> 0 < count && PowersOff(acts[count - 1], trace[count - 1])
      ensures ending == Scheduler.Panicked ==>
        ActPanics(acts[count - 1], trace[count - 1]) || ActOpen(acts[count - 1], trace[count - 1])
    {
      hide Valid, CurrentArmed, PowersOff, Refused, ActOk, ActPanics, ActOpen, ActStep, SnapOk, Contexts,
        IsTrace;
      ValidIsHeld();
      count, ending := 0, Scheduler.Back;
      trace := [Now()];
      TraceStarts(Now(), acts);
      while count < |acts|
        invariant count <= |acts| && UserMode() && ending == Scheduler.Back && |trace| == count + 1 && sched.Valid()
        invariant trace[0] == old(Now()) && trace[count] == Now() && IsTrace(acts[..count], trace)
        invariant count > 0 ==> !PowersOff(acts[count - 1], trace[count - 1])
      {
        ValidIsHeld();
        var done;
        done, ending := Perform(acts[count]);
        if !done { break; }
        count := count + 1;
        if ending != Scheduler.Back { return; }
        ValidIsHeld();
        TraceGrows(acts, count - 1, trace, Now());
        trace := trace + [Now()];
      }
    }
  }

  lemma ScheduleAt(x: Snap)
    requires SnapOk(x)
    ensures Schedule.Inv(x.view, |x.spaces|)
  {
    hide Spaces.Inv, Base, HeapOk, Schedule.Inv;
  }

  /** Consecutive states of a run, in which no act panics. */
  ghost predicate IsTrace(acts: seq<Act>, trace: seq<Snap>) {
    && |trace| == |acts| + 1 && (forall i :: 0 <= i < |trace| ==> SnapOk(trace[i]))
    && (forall i :: 0 <= i < |acts| ==>
          ActOk(acts[i]) && ActStep(acts[i], trace[i], trace[i + 1]) && !ActPanics(acts[i], trace[i]))
  }

  lemma TraceStarts(x: Snap, acts: seq<Act>)
    requires SnapOk(x)
    ensures IsTrace(acts[..0], [x])
  {
  }

  lemma TraceGrows(acts: seq<Act>, i: nat, trace: seq<Snap>, y: Snap)
    requires i < |acts| && IsTrace(acts[..i], trace) && SnapOk(y) && ActOk(acts[i]) && ActStep(acts[i], trace[i], y)
    requires !ActPanics(acts[i], trace[i])
    ensures IsTrace(acts[..i + 1], trace + [y])
  {
    hide SnapOk, ActOk, ActStep, ActPanics;
    var now, more := acts[..i + 1], trace + [y];
    forall j | 0 <= j < |now|
      ensures ActOk(now[j]) && ActStep(now[j], more[j], more[j + 1]) && !ActPanics(now[j], more[j])
    {
      if j < i { assert now[j] == acts[..i][j]; }
    }
  }

  /** A store to a user page leaves the trapframes alone. */
  lemma StoreKeepsContexts(s: State, s': State, f: nat)
    requires s.roles.Keys == s.mem.Keys == s'.mem.Keys
    requires s'.mem == s.mem || (f in s.roles && f in s'.mem && s'.mem == s.mem[f := s'.mem[f]] &&
      Print.UserRole(s.roles[f]))
    ensures ContextsKept(s, s')
  {
    forall g | g in s.roles && s.roles[g].Trapframe? ensures g in s.mem && g in s'.mem && s'.mem[g] == s.mem[g] {
      assert g in s.mem.Keys;
    }
  }

  lemma SlotNeeded(s: State, spaces: seq<Space>, parent: nat, trapSec: nat)
    requires parent < |spaces|
    ensures CanFork(s, spaces, parent, trapSec) ==> |spaces| < Schedule.NPROC
  {
    hide Fork.ForkFits;
  }

  lemma ForkIsStep(x: Snap, y: Snap, pid: nat)
    requires y.cfg == x.cfg && y.heap == x.heap && y.ufree == x.ufree && y.exhausted == x.exhausted && pid < |x.spaces|
    requires |y.spaces| == |x.spaces| + 1 && y.spaces[..|x.spaces|] == x.spaces && y.spaces[|x.spaces|].parent == pid
    requires Fork.ForkDone(x.s, y.s, y.spaces, pid, |x.spaces|) && x.s.roles.Keys == x.s.mem.Keys
    requires Fork.Grew(x.s, y.s, pid, |x.spaces|, x.cfg.trapSec, y.spaces[pid].regions)
    ensures ForkStep(x, y, pid)
  {
    hide LeafWord, TreesKept, WordsKept, Shaped, Fork.ChildPages, Fork.ChildFrames, Fork.AllFound,
      Fork.PageCopied, Fork.RegionForked, Fork.ContextCopied, FramesStay, NodesStay, Tables;
    var n := |x.spaces|;
    EvolvesKeeps(x.s, y.s, n, pid, n);
    assert y.spaces[pid] == x.spaces[pid];
  }

  lemma FreeKeeps(s: State, s': State, pid: nat, v: nat, n: nat)
    requires PlainStay(s, s', {FrameOf(LeafWord(s, UserTree(pid), v))})
    requires s'.nodes == s.nodes && s'.mem.Keys == s.mem.Keys
    requires forall t, u: nat :: t != UserTree(pid) || u != v ==> LeafWord(s', t, u) == LeafWord(s, t, u)
    ensures TreesKept(s, s', pid, n) && WordsKept(s, s', {FrameOf(LeafWord(s, UserTree(pid), v))})
  {
    hide LeafWord, FrameOf;
  }

  lemma PrintReads(s: State, pid: nat, va: nat)
    requires Well(s) && Root(UserTree(pid)) in s.nodes
    ensures UserVaToPa(s.mem, s.nodes[Root(UserTree(pid))], va) ==
      if va >= MAXVA then Fault else Address(PrintAddress(s, pid, va))
  {
    hide Well, LeafWord, WalkFrom, Descend, ToAddress;
    if va < MAXVA { WalksReachLeaf(s, UserTree(pid), va, Hardware.Load, true); }
  }
}
