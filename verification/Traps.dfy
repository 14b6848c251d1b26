/**
 Traps and what they mean to the caller and to the scheduler (kernel/strap.c,
 kernel/syscall.c), and the contexts saved in trapframes.
 */
module Traps {
  import opened Words
  import opened Sv39
  import opened Layout
  import opened Ownership
  import opened Birth
  import opened Kernel
  import Spaces
  import Fork
  import Schedule

  const CAUSE_USER_ECALL: nat := 8
  const CAUSE_LOAD_PAGE_FAULT: nat := 13
  const CAUSE_STORE_PAGE_FAULT: nat := 15
  const CAUSE_MTIMER_S_TRAP: nat := 0x8000_0000_0000_0001

  const SYS_PRINT: nat := 64
  const SYS_EXIT: nat := 65
  const SYS_ALLOCATE_PAGE: nat := 66
  const SYS_FREE_PAGE: nat := 67
  const SYS_FORK: nat := 68
  const SYS_YIELD: nat := 69
  const SYS_WAIT: nat := 70

  /** General registers in a trapframe, and the words after them. */
  const REGS: nat := 31
  const A1_WORD: nat := 10
  const KERNEL_SP_WORD: nat := 31
  const KERNEL_TRAP_WORD: nat := 32
  const EPC_WORD: nat := 33
  const KERNEL_SATP_WORD: nat := 34

  /** The user-visible part of a trapframe. */
  datatype Saved = Saved(regs: seq<nat>, epc: nat)

  /** What the hart reports: the cause, the registers the entry stub stores, and the trap addresses. */
  datatype Trap = Trap(cause: nat, regs: seq<nat>, sepc: nat, stval: nat)

  /** One thing a user program does: a trap, or a store that leaves `value` in the word around va. */
  datatype Act = Raise(trap: Trap) | Write(va: nat, value: nat)

  predicate TrapOk(t: Trap) {
    |t.regs| == REGS && t.stval < WORD_LIMIT
  }

  predicate ActOk(a: Act) {
    match a
    case Raise(t) => TrapOk(t)
    case Write(va, _) => va < WORD_LIMIT
  }

  predicate IsCall(t: Trap, number: nat)
    requires TrapOk(t)
  {
    t.cause == CAUSE_USER_ECALL && t.regs[A0_WORD] == number
  }

  // ---- what a trap means to the scheduler and to the caller ----

  /** The event of the step machine that a trap amounts to, if any. */
  function EventOf(t: Trap): seq<Schedule.Event>
    requires TrapOk(t)
  {
    if t.cause == CAUSE_MTIMER_S_TRAP then [Schedule.Tick]
    else if IsCall(t, SYS_EXIT) then [Schedule.Exit]
    else if IsCall(t, SYS_FORK) then [Schedule.Fork]
    else if IsCall(t, SYS_YIELD) then [Schedule.Yield]
    else if IsCall(t, SYS_WAIT) then [Schedule.Wait(ToInt(t.regs[A1_WORD]))]
    else []
  }

  function ActEvents(a: Act): (events: seq<Schedule.Event>)
    ensures |events| <= 1
  {
    if a.Raise? && TrapOk(a.trap) then EventOf(a.trap) else []
  }

  function EventsOf(acts: seq<Act>): seq<Schedule.Event> {
    if acts == [] then [] else EventsOf(acts[..|acts| - 1]) + ActEvents(acts[|acts| - 1])
  }

  predicate IsFree(a: Act) {
    a.Raise? && TrapOk(a.trap) && IsCall(a.trap, SYS_FREE_PAGE)
  }

  /** The argument of wait is cut to a 32-bit int. */
  function ToInt(x: nat): int {
    var low := x % 0x1_0000_0000;
    if low >= 0x8000_0000 then low - 0x1_0000_0000 else low
  }

  /** The value a call returns to its caller, if it does return. */
  datatype Answer = Value(value: nat) | Silent

  function AnswerOf(t: Trap, v: Schedule.View, ufree: nat): Answer
    requires TrapOk(t)
  {
    if t.cause != CAUSE_USER_ECALL then Silent
    else if t.regs[A0_WORD] == SYS_ALLOCATE_PAGE then Value(ufree)
    else if t.regs[A0_WORD] == SYS_FORK then Value(Schedule.FirstFree(v.procs))
    else if t.regs[A0_WORD] == SYS_WAIT then if Schedule.HasChild(v) then Silent else Value(WORD_LIMIT - 1)
    else if t.regs[A0_WORD] == SYS_PRINT || t.regs[A0_WORD] == SYS_FREE_PAGE then Value(0)
    else Silent
  }

  /** The caller's context after the trap: calls return behind the ecall, with the answer in a0. */
  function After(t: Trap, answer: Answer): Saved
    requires TrapOk(t)
  {
    Saved(if answer.Value? then t.regs[A0_WORD := answer.value] else t.regs,
          if t.cause == CAUSE_USER_ECALL then Wrap(t.sepc + 4) else t.sepc)
  }

  /** A trap changes the context of the current process only; a fork adds the child's, with a0 zero. */
  function Newborn(c: seq<Saved>, current: nat, t: Trap): seq<Saved>
    requires TrapOk(t)
  {
    if IsCall(t, SYS_FORK) && current < |c| && |c[current].regs| == REGS
    then [c[current].(regs := c[current].regs[A0_WORD := 0])] else []
  }

  function ContextsAfter(c: seq<Saved>, t: Trap, v: Schedule.View, ufree: nat): seq<Saved>
    requires TrapOk(t) && v.current < |c|
  {
    var all := c[v.current := After(t, AnswerOf(t, v, ufree))];
    all + Newborn(all, v.current, t)
  }

  /** Saving the advanced context, adding the child's and storing the answer gives the new contexts. */
  lemma Answered(c: seq<Saved>, t: Trap, pid: nat, answer: Answer, v: Schedule.View, ufree: nat)
    requires TrapOk(t) && t.cause == CAUSE_USER_ECALL && pid == v.current < |c|
    ensures var d := c[pid := Saved(t.regs, Wrap(t.sepc + 4))];
      && |d + Newborn(d, pid, t)| >= |c|
      && (answer == AnswerOf(t, v, ufree) ==>
            ContextsAfter(c, t, v, ufree) ==
            if answer.Value? then
              (d + Newborn(d, pid, t))[pid := Saved(t.regs[A0_WORD := answer.value], Wrap(t.sepc + 4))]
            else d + Newborn(d, pid, t))
  {
    hide Wrap;
    var d := c[pid := Saved(t.regs, Wrap(t.sepc + 4))];
    var w := AnswerOf(t, v, ufree);
    if w.Value? {
      assert t.regs[A0_WORD := w.value][A0_WORD := 0] == t.regs[A0_WORD := 0];
    }
  }

  lemma SavedTwice(c: seq<Saved>, t: Trap, v: Schedule.View, ufree: nat)
    requires TrapOk(t) && v.current < |c|
    ensures ContextsAfter(c[v.current := Saved(t.regs, t.sepc)], t, v, ufree) == ContextsAfter(c, t, v, ufree)
  {
    hide After, AnswerOf, Newborn;
    var a := After(t, AnswerOf(t, v, ufree));
    assert c[v.current := Saved(t.regs, t.sepc)][v.current := a] == c[v.current := a];
  }

  /** A trap that is no call leaves the context that the entry saved. */
  lemma SavedOnce(c: seq<Saved>, t: Trap, v: Schedule.View, ufree: nat)
    requires TrapOk(t) && t.cause != CAUSE_USER_ECALL && v.current < |c| && c[v.current] == Saved(t.regs, t.sepc)
    ensures ContextsAfter(c, t, v, ufree) == c
  {
    assert c[v.current := Saved(t.regs, t.sepc)] == c && c + [] == c;
  }

  // ---- contexts in memory ----

  function ContextIn(page: Page): Saved
    requires |page| == ENTRIES
  {
    Saved(page[..31], page[33])
  }

  function ContextAt(m: Memory, f: nat): Saved {
    if f in m && |m[f]| == ENTRIES then ContextIn(m[f]) else Saved([], 0)
  }

  /** A trapframe page with the user-visible part replaced. */
  function Renewed(page: Page, c: Saved): (p: Page)
    requires |page| == ENTRIES && |c.regs| == REGS
    ensures |p| == ENTRIES && ContextIn(p) == c
  {
    (c.regs + page[REGS..])[EPC_WORD := c.epc]
  }

  /** What the entry stub needs in the trapframe: stack, handler and page table of the kernel. */
  predicate Armed(page: Page, kernelStack: nat, satp: nat, handler: nat) {
    |page| == ENTRIES && page[31] == (kernelStack + 1) * PAGE_SIZE && page[32] == handler && page[34] == satp
  }

  /** The first word the kernel pushes lies at the end of its stack page. */
  lemma StackPointerAtEnd(page: Page, kernelStack: nat, satp: nat, handler: nat)
    requires Armed(page, kernelStack, satp, handler)
    ensures page[31] >= 8 && (page[31] - 8) / 4096 == kernelStack && (page[31] - 8) % 4096 == 4088
  {
  }

  function Arm(page: Page, kernelStack: nat, satp: nat, handler: nat): (p: Page)
    requires |page| == ENTRIES
    ensures Armed(p, kernelStack, satp, handler) && ContextIn(p) == ContextIn(page)
  {
    page[KERNEL_SP_WORD := (kernelStack + 1) * PAGE_SIZE][KERNEL_SATP_WORD := satp][KERNEL_TRAP_WORD := handler]
  }

  ghost function Contexts(m: Memory, spaces: seq<Space>): (c: seq<Saved>)
    ensures |c| == |spaces| && forall i :: 0 <= i < |c| ==> c[i] == ContextAt(m, spaces[i].trapframe)
  {
    seq(|spaces|, i requires 0 <= i < |spaces| => ContextAt(m, spaces[i].trapframe))
  }

  lemma EvolvesKeepsContexts(s: State, s': State, pid: nat)
    requires Evolves(s, s', pid, {}) && s.roles.Keys == s.mem.Keys
    ensures ContextsKept(s, s')
  {
    hide LeavesStay, NodesStay;
    forall g | g in s.roles && s.roles[g].Trapframe? ensures g in s.mem && g in s'.mem && s'.mem[g] == s.mem[g] {
      assert g in s.mem.Keys && g in s'.mem.Keys;
    }
  }

  lemma KeptContexts(s: State, s': State, spaces: seq<Space>, trapSec: nat, exhausted: bool)
    requires Spaces.Inv(s, spaces, trapSec, exhausted) && ContextsKept(s, s')
    ensures Contexts(s'.mem, spaces) == Contexts(s.mem, spaces)
  {
    hide Spaces.Inv;
    forall i | 0 <= i < |spaces|
      ensures ContextAt(s'.mem, spaces[i].trapframe) == ContextAt(s.mem, spaces[i].trapframe)
    {
      Fork.ContextFrame(s, spaces, trapSec, exhausted, i);
    }
  }

  lemma ContextWritten(s: State, spaces: seq<Space>, trapSec: nat, exhausted: bool, pid: nat, page: Page)
    requires Spaces.Inv(s, spaces, trapSec, exhausted) && pid < |spaces| && |page| == ENTRIES
    ensures Contexts(s.mem[spaces[pid].trapframe := page], spaces) == Contexts(s.mem, spaces)[pid := ContextIn(page)]
  {
    hide Spaces.Inv;
    Fork.ContextFrame(s, spaces, trapSec, exhausted, pid);
    forall i: nat | i < |spaces| && i != pid ensures spaces[i].trapframe != spaces[pid].trapframe {
      Fork.ContextFrame(s, spaces, trapSec, exhausted, i);
    }
  }

  lemma UsesAreFrames(s: State, spaces: seq<Space>, trapSec: nat, exhausted: bool)
    requires Spaces.Inv(s, spaces, trapSec, exhausted)
    ensures s.roles.Keys == s.mem.Keys
  {
    hide TreesOk, FreeOk, LeavesOwned, TreesOwned, Spaces.SpaceOk, Spaces.OwnerOk, Spaces.CodeOk;
  }

  /** The child of a fork starts with its parent's context, except for a0. */
  lemma ForkedContexts(s0: State, s: State, before: seq<Space>, spaces: seq<Space>, trapSec: nat, exhausted: bool,
                       parent: nat)
    requires Spaces.Inv(s0, before, trapSec, exhausted) && |spaces| == |before| + 1 && spaces[..|before|] == before
    requires parent < |before| && Fork.ForkDone(s0, s, spaces, parent, |before|)
    ensures var c := Contexts(s0.mem, before);
      && |c[parent].regs| == REGS
      && Contexts(s.mem, spaces) == c + [c[parent].(regs := c[parent].regs[A0_WORD := 0])]
  {
    hide Spaces.Inv, Evolves, Fork.PageCopied, Fork.RegionForked, ContextsKept;
    UsesAreFrames(s0, before, trapSec, exhausted);
    EvolvesKeepsContexts(s0, s, |before|);
    KeptContexts(s0, s, before, trapSec, exhausted);
    Fork.ContextFrame(s0, before, trapSec, exhausted, parent);
    var c, d := Contexts(s0.mem, before), Contexts(s.mem, spaces);
    assert d[..|before|] == Contexts(s.mem, before);
    var mine, child := s.mem[spaces[parent].trapframe], s.mem[spaces[|before|].trapframe];
    assert spaces[parent] == before[parent] && d[parent] == ContextIn(mine) == c[parent];
    assert child[..REGS] == mine[..REGS][A0_WORD := 0];
  }

  /** The process table and the memory records name the same parents. */
  ghost predicate ParentsAgree(procs: seq<Schedule.Info>, spaces: seq<Space>) {
    |spaces| <= |procs| && forall i :: 0 < i < |spaces| ==> procs[i].parent == spaces[i].parent
  }

  lemma StepKeepsParents(v: Schedule.View, e: Schedule.Event, spaces: seq<Space>)
    requires Schedule.InRange(v) && !e.Fork? && Schedule.Step(v, e).Runs? && ParentsAgree(v.procs, spaces)
    ensures ParentsAgree(Schedule.Step(v, e).view.procs, spaces)
  {
  }

  lemma RunOne(v: Schedule.View, e: Schedule.Event)
    requires Schedule.InRange(v)
    ensures Schedule.Run(v, [e]) == Schedule.Step(v, e)
  {
    assert [e][..|[e]| - 1] == [];
    assert Schedule.Run(v, []) == Schedule.Runs(v);
  }

  /** A scheduling step on behalf of a run. */
  lemma SchedulingStep(v: Schedule.View, e: Schedule.Event, spaces: seq<Space>)
    requires Schedule.Inv(v, |spaces|) && !e.Fork? && ParentsAgree(v.procs, spaces)
    ensures Schedule.Run(v, [e]) == Schedule.Step(v, e) && !Schedule.Step(v, e).Panics?
    ensures Schedule.Step(v, e).Runs? ==>
      Schedule.Inv(Schedule.Step(v, e).view, |spaces|) && ParentsAgree(Schedule.Step(v, e).view.procs, spaces)
  {
    hide Schedule.Step, Schedule.Run, ParentsAgree;
    RunOne(v, e);
    Schedule.StepKeepsPartition(v, |spaces|, e);
    if Schedule.Step(v, e).Runs? { StepKeepsParents(v, e, spaces); }
  }

  /** A fork's step, when there is a slot. */
  lemma ForkingStep(v: Schedule.View, before: seq<Space>, spaces: seq<Space>)
    requires Schedule.Inv(v, |before|) && ParentsAgree(v.procs, before) && |before| < Schedule.NPROC
    requires |spaces| == |before| + 1 && spaces[..|before|] == before && spaces[|before|].parent == v.current
    ensures Schedule.Run(v, [Schedule.Fork]) == Schedule.Step(v, Schedule.Fork) && Schedule.Step(v, Schedule.Fork).Runs?
    ensures var u := Schedule.Step(v, Schedule.Fork).view;
      Schedule.Inv(u, |spaces|) && ParentsAgree(u.procs, spaces) && u.current == v.current
  {
    hide Schedule.Run;
    RunOne(v, Schedule.Fork);
    var n := |before|;
    Schedule.ForkKeeps(v, n);
    Schedule.SlotsGiveFirstFree(v, n);
    var u := Schedule.Step(v, Schedule.Fork).view;
    assert forall i :: 0 <= i < n ==> u.procs[i].parent == v.procs[i].parent;
    assert forall i :: 0 <= i < n ==> spaces[i] == before[i];
  }

  lemma NoEvents(v: Schedule.View, acts: seq<Act>)
    ensures EventsOf(acts[..0]) == [] && Schedule.Run(v, []) == Schedule.Runs(v)
  {
  }

  /** The events of one more act continue the run. */
  lemma NextEvent(v: Schedule.View, u: Schedule.View, acts: seq<Act>, i: nat)
    requires i < |acts| && Schedule.InRange(u)
    requires Schedule.Run(v, EventsOf(acts[..i])) == Schedule.Runs(u)
    ensures Schedule.Run(v, EventsOf(acts[..i + 1])) == Schedule.Run(u, ActEvents(acts[i]))
  {
    hide Schedule.Step, ActEvents;
    var before, now := EventsOf(acts[..i]), ActEvents(acts[i]);
    assert acts[..i + 1][..i] == acts[..i];
    assert EventsOf(acts[..i + 1]) == before + now;
    if now != [] {
      assert now == [now[0]] && (before + now)[..|before + now| - 1] == before;
      RunOne(u, now[0]);
    } else {
      assert before + now == before;
    }
  }

  lemma CountForks(v: Schedule.View, n: nat, events: seq<Schedule.Event>)
    requires Schedule.Inv(v, n) && Schedule.Run(v, events).Runs?
    ensures var u := Schedule.Run(v, events).view;
      forall m: nat :: Schedule.Inv(u, m) ==> m == n + Schedule.Forks(events)
  {
    Schedule.RunKeepsPartition(v, n, events);
    forall m: nat | Schedule.Inv(Schedule.Run(v, events).view, m) ensures m == n + Schedule.Forks(events) {
      Schedule.SlotsGiveFirstFree(Schedule.Run(v, events).view, m);
      Schedule.SlotsGiveFirstFree(Schedule.Run(v, events).view, n + Schedule.Forks(events));
    }
  }
}
