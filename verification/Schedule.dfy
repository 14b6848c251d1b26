/**
 Process life cycle and round-robin scheduling as a step machine (kernel/sched.c,
 kernel/process.c, kernel/strap.c, kernel/syscall.c).  A trap is one step: schedule does
 not return to its caller but to the process it picked.
 */
module Schedule {

  const NPROC: nat := 32
  const TIME_SLICE_LEN: int := 2

  datatype Status = Free | Ready | Running | Blocked | Zombie

  /** What a slot of the process table says; a parent of -1 is none. */
  datatype Info = Info(status: Status, parent: int, ticks: int)

  datatype View = View(procs: seq<Info>, queue: seq<nat>, current: nat)

  datatype Event = Fork | Yield | Wait(pid: int) | Exit | Tick

  datatype Result = Runs(view: View) | Shutdown | Panics

  predicate InRange(v: View) {
    |v.procs| == NPROC && v.current < NPROC && forall i :: 0 <= i < |v.queue| ==> v.queue[i] < NPROC
  }

  function SetStatus(v: View, p: nat, status: Status): View
    requires p < |v.procs|
  {
    v.(procs := v.procs[p := v.procs[p].(status := status)])
  }

  /** insert_to_ready_queue: at the tail, unless it is there. */
  function Insert(v: View, p: nat): View
    requires p < |v.procs|
  {
    if p in v.queue then v else SetStatus(v, p, Ready).(queue := v.queue + [p])
  }

  predicate Over(info: Info) { info.status.Free? || info.status.Zombie? }

  /** schedule: dispatch the head of the queue; with an empty queue, shut down or panic. */
  function Dispatch(v: View): Result
    requires InRange(v)
  {
    if v.queue == [] then
      if forall i :: 0 <= i < NPROC ==> Over(v.procs[i]) then Shutdown else Panics
    else if v.procs[v.queue[0]].status != Ready then Panics
    else Runs(v.(current := v.queue[0], queue := v.queue[1..]))
  }

  /** The current process goes to the tail of the queue, and the next one runs. */
  function GiveUp(v: View): Result
    requires InRange(v)
  {
    Dispatch(Insert(SetStatus(v, v.current, Ready), v.current))
  }

  /** The first FREE slot, or NPROC. */
  function FirstFree(procs: seq<Info>): (n: nat)
    ensures n <= |procs|
    ensures forall i :: 0 <= i < n ==> !procs[i].status.Free?
    ensures n < |procs| ==> procs[n].status.Free?
  {
    if procs == [] || procs[0].status.Free? then 0 else
    assert procs[1..] != [] ==> forall i :: 0 <= i < |procs[1..]| ==> procs[1..][i] == procs[i + 1];
    1 + FirstFree(procs[1..])
  }

  predicate HasChild(v: View) {
    exists i :: 0 <= i < |v.procs| && v.procs[i].parent == v.current
  }

  function Step(v: View, e: Event): Result
    requires InRange(v)
  {
    match e
    case Fork =>
      var n := FirstFree(v.procs);
      if n == NPROC then Panics else
      var child := v.(procs := v.procs[n := v.procs[n].(status := Ready, parent := v.current)]);
      Runs(Insert(child, n))
    case Yield => GiveUp(v)
    case Wait(_) => if HasChild(v) then GiveUp(v) else Runs(v)
    case Exit => Dispatch(SetStatus(v, v.current, Zombie))
    case Tick =>
      var t := v.procs[v.current].ticks + 1;
      if t > TIME_SLICE_LEN then GiveUp(v.(procs := v.procs[v.current := v.procs[v.current].(ticks := 0)]))
      else Runs(v.(procs := v.procs[v.current := v.procs[v.current].(ticks := t)]))
  }

  /** Whether a step goes through schedule. */
  predicate Schedules(v: View, e: Event)
    requires InRange(v)
  {
    match e
    case Fork => false
    case Yield => true
    case Wait(_) => HasChild(v)
    case Exit => true
    case Tick => v.procs[v.current].ticks + 1 > TIME_SLICE_LEN
  }

  ghost predicate Distinct(q: seq<nat>) {
    forall i, j :: 0 <= i < j < |q| ==> q[i] != q[j]
  }

  /** Slot i: created slots come first, every parent is older, ticks stay within a slice. */
  ghost predicate SlotOk(procs: seq<Info>, n: nat, i: nat)
    requires i < |procs|
  {
    var p := procs[i];
    && (p.status.Free? <==> i >= n)
    && (p.status.Free? || p.status.Ready? || p.status.Zombie?)
    && 0 <= p.ticks <= TIME_SLICE_LEN
    && (if 0 < i < n then 0 <= p.parent < i else p.parent == -1)
  }

  /**
   In user mode: the queue has no repetition, its members are ready, the current process is
   ready and not in the queue, and no other process is neither free nor a zombie.
   */
  ghost predicate Inv(v: View, n: nat) {
    && InRange(v) && 0 < n <= NPROC
    && (forall i: nat {:trigger SlotOk(v.procs, n, i)} :: i < NPROC ==> SlotOk(v.procs, n, i))
    && Distinct(v.queue) && v.current !in v.queue
    && (forall i: nat {:trigger v.procs[i]} ::
          i < NPROC ==> (v.procs[i].status.Ready? <==> i == v.current || i in v.queue))
  }

  /** The table when the first program starts: process 0 runs, and there is no other. */
  function FirstView(): View {
    View(seq(32, i => if i == 0 then Info(Ready, -1, 0) else Info(Free, -1, 0)), [], 0)
  }

  // ---- safety ----

  lemma SlotsGiveFirstFree(v: View, n: nat)
    requires Inv(v, n)
    ensures FirstFree(v.procs) == n
  {
    var m := FirstFree(v.procs);
    assert m < NPROC ==> SlotOk(v.procs, n, m);
    assert n < NPROC ==> SlotOk(v.procs, n, n);
  }

  lemma InsertKeeps(v: View, n: nat, p: nat)
    requires InRange(v) && 0 < n <= NPROC && p < n && p !in v.queue && Distinct(v.queue)
    requires forall i: nat {:trigger SlotOk(v.procs, n, i)} :: i < NPROC ==> SlotOk(v.procs, n, i)
    ensures InRange(Insert(v, p)) && Distinct(Insert(v, p).queue)
    ensures forall i: nat {:trigger SlotOk(Insert(v, p).procs, n, i)} :: i < NPROC ==> SlotOk(Insert(v, p).procs, n, i)
  {
    forall i: nat | i < NPROC ensures SlotOk(Insert(v, p).procs, n, i) {
      assert SlotOk(v.procs, n, i);
    }
  }

  /** Giving up the processor: the queue rotates with the current process at its end. */
  lemma GiveUpRotates(v: View, n: nat)
    requires Inv(v, n)
    ensures var all := v.queue + [v.current];
      GiveUp(v) == Runs(v.(current := all[0], queue := all[1..])) && Inv(GiveUp(v).view, n)
  {
    assert SlotOk(v.procs, n, v.current);
    var w := SetStatus(v, v.current, Ready);
    assert w.procs == v.procs;
    InsertKeeps(w, n, v.current);
    var all := v.queue + [v.current];
    var u := Insert(w, v.current);
    assert u.procs == v.procs && u.queue == all;
    assert all[0] in all;
    assert forall i :: i in all <==> i == all[0] || i in all[1..];
  }

  lemma ExitKeeps(v: View, n: nat)
    requires Inv(v, n)
    ensures match Step(v, Exit)
      case Runs(v') => Inv(v', n)
      case Shutdown => v.queue == []
      case Panics => false
  {
    var w := SetStatus(v, v.current, Zombie);
    assert SlotOk(v.procs, n, v.current);
    forall i: nat | i < NPROC ensures SlotOk(w.procs, n, i) {
      assert SlotOk(v.procs, n, i);
    }
    if v.queue != [] {
      assert v.queue[0] in v.queue;
      assert forall i :: i in v.queue <==> i == v.queue[0] || i in v.queue[1..];
    } else {
      forall i | 0 <= i < NPROC ensures Over(w.procs[i]) {
        assert SlotOk(w.procs, n, i);
      }
    }
  }

  lemma ForkKeeps(v: View, n: nat)
    requires Inv(v, n)
    ensures n == NPROC ==> Step(v, Fork) == Panics
    ensures n < NPROC ==>
      && Step(v, Fork).Runs? && Inv(Step(v, Fork).view, n + 1) && Step(v, Fork).view.queue == v.queue + [n]
      && Step(v, Fork).view.current == v.current && Step(v, Fork).view.procs[n].parent == v.current
  {
    SlotsGiveFirstFree(v, n);
    if n < NPROC {
      assert SlotOk(v.procs, n, v.current) && SlotOk(v.procs, n, n);
      var w := v.(procs := v.procs[n := v.procs[n].(status := Ready, parent := v.current)]);
      var m := n + 1;
      forall i: nat | i < NPROC ensures SlotOk(w.procs, m, i) {
        assert SlotOk(v.procs, n, i);
      }
      InsertKeeps(w, m, n);
      assert Insert(w, n).procs == w.procs;
    }
  }

  lemma TickKeeps(v: View, n: nat)
    requires Inv(v, n)
    ensures Step(v, Tick).Runs? && Inv(Step(v, Tick).view, n)
  {
    var t := v.procs[v.current].ticks + 1;
    assert SlotOk(v.procs, n, v.current);
    var w := v.(procs := v.procs[v.current := v.procs[v.current].(ticks := if t > TIME_SLICE_LEN then 0 else t)]);
    forall i: nat | i < NPROC ensures SlotOk(w.procs, n, i) {
      assert SlotOk(v.procs, n, i);
    }
    assert Inv(w, n);
    if t > TIME_SLICE_LEN {
      GiveUpRotates(w, n);
    }
  }

  /**
   Every step keeps the partition of the processes.  The assertion and the panic in
   schedule are out of reach; the only panic is a fork with a full table; and the machine
   shuts down exactly when the last process that has not exited does.
   */
  lemma StepKeepsPartition(v: View, n: nat, e: Event)
    requires Inv(v, n)
    ensures Step(v, e).Runs? ==> Inv(Step(v, e).view, if e.Fork? then n + 1 else n)
    ensures Step(v, e).Panics? <==> e.Fork? && n == NPROC
    ensures Step(v, e).Shutdown? <==>
      e.Exit? && forall i: nat :: i < n && i != v.current ==> v.procs[i].status.Zombie?
  {
    match e {
      case Fork => ForkKeeps(v, n);
      case Yield => GiveUpRotates(v, n);
      case Wait(_) => GiveUpRotates(v, n);
      case Tick => TickKeeps(v, n);
      case Exit =>
        ExitKeeps(v, n);
        OnlyZombiesLeft(v, n);
    }
  }

  lemma OnlyZombiesLeft(v: View, n: nat)
    requires Inv(v, n)
    ensures v.queue == [] <==> forall i: nat :: i < n && i != v.current ==> v.procs[i].status.Zombie?
  {
    if v.queue != [] {
      var q := v.queue[0];
      assert q in v.queue && v.procs[q].status.Ready? && SlotOk(v.procs, n, q);
    } else {
      forall i: nat | i < n && i != v.current ensures v.procs[i].status.Zombie? {
        assert SlotOk(v.procs, n, i);
      }
    }
  }

  // ---- whole runs ----

  function Run(v: View, events: seq<Event>): Result
  {
    if events == [] then Runs(v) else
    match Run(v, events[..|events| - 1])
    case Runs(u) => if InRange(u) then Step(u, events[|events| - 1]) else Panics
    case r => r
  }

  function Forks(events: seq<Event>): nat {
    if events == [] then 0 else
    Forks(events[..|events| - 1]) + if events[|events| - 1].Fork? then 1 else 0
  }

  function Ticks(events: seq<Event>): nat {
    if events == [] then 0 else
    Ticks(events[..|events| - 1]) + if events[|events| - 1].Tick? then 1 else 0
  }

  /** How often schedule was called during a run. */
  function Calls(v: View, events: seq<Event>): nat {
    if events == [] then 0 else
    Calls(v, events[..|events| - 1]) +
    match Run(v, events[..|events| - 1])
    case Runs(u) => if InRange(u) && Schedules(u, events[|events| - 1]) then 1 else 0
    case _ => 0
  }

  /** The partition holds after every run that is still going. */
  lemma {:induction false} RunKeepsPartition(v: View, n: nat, events: seq<Event>)
    requires Inv(v, n)
    ensures Run(v, events).Runs? ==> Inv(Run(v, events).view, n + Forks(events))
    ensures Run(v, events).Panics? ==> n + Forks(events) > NPROC
    decreases |events|
  {
    hide Step, SlotOk, Distinct;
    if events != [] {
      var before, e := events[..|events| - 1], events[|events| - 1];
      RunKeepsPartition(v, n, before);
      if Run(v, before).Runs? {
        StepKeepsPartition(Run(v, before).view, n + Forks(before), e);
      }
    }
  }

  /** The event is the exit of the last process that has not exited; of n processes created. */
  ghost predicate LastExit(v: View, n: nat, e: Event)
    requires n <= |v.procs|
  {
    e.Exit? && forall i: nat :: i < n && i != v.current ==> v.procs[i].status.Zombie?
  }

  /** Event i of a run is one that ends it: the last exit, or a fork with a full table. */
  ghost predicate EndsAt(v: View, n: nat, events: seq<Event>, i: nat, off: bool) {
    && i < |events| && Run(v, events[..i]).Runs?
    && var u, m := Run(v, events[..i]).view, n + Forks(events[..i]);
       if off then m <= |u.procs| && LastExit(u, m, events[i]) else events[i].Fork? && m == NPROC
  }

  /** The last event of a run that was still going. */
  lemma LastStep(v: View, n: nat, before: seq<Event>, e: Event)
    requires Inv(v, n) && Run(v, before).Runs?
    ensures var u, m := Run(v, before).view, n + Forks(before);
      && InRange(u) && m <= |u.procs| && Inv(u, m)
      && (Step(u, e).Shutdown? <==> LastExit(u, m, e)) && (Step(u, e).Panics? <==> e.Fork? && m == NPROC)
  {
    hide Run, Forks, Step, SlotOk, Distinct;
    RunKeepsPartition(v, n, before);
    StepKeepsPartition(Run(v, before).view, n + Forks(before), e);
  }

  /** What ends a run before its last event ends the shorter run, too. */
  lemma EndsEarlier(v: View, n: nat, events: seq<Event>, i: nat, off: bool)
    requires EndsAt(v, n, events, i, off) && i < |events| - 1
    ensures EndsAt(v, n, events[..|events| - 1], i, off)
  {
    hide Run, Forks, LastExit;
    assert events[..|events| - 1][..i] == events[..i];
  }

  /** A run is over at the event that ends it. */
  lemma {:induction false} OverAt(v: View, n: nat, events: seq<Event>, i: nat, off: bool)
    requires Inv(v, n) && EndsAt(v, n, events, i, off)
    ensures Run(v, events).Shutdown? == off && Run(v, events).Panics? == !off
    decreases |events|
  {
    hide Step, SlotOk, Distinct, LastExit, Forks;
    var before, e := events[..|events| - 1], events[|events| - 1];
    if i < |before| {
      EndsEarlier(v, n, events, i, off);
      OverAt(v, n, before, i, off);
    } else {
      LastStep(v, n, before, e);
    }
  }

  lemma {:induction false} FindEnd(v: View, n: nat, events: seq<Event>) returns (i: nat)
    requires Inv(v, n) && !Run(v, events).Runs?
    ensures EndsAt(v, n, events, i, Run(v, events).Shutdown?)
    decreases |events|
  {
    hide Step, SlotOk, Distinct, LastExit, Forks;
    var before, e := events[..|events| - 1], events[|events| - 1];
    if Run(v, before).Runs? {
      i := |events| - 1;
      LastStep(v, n, before, e);
    } else {
      i := FindEnd(v, n, before);
      assert before[..i] == events[..i];
    }
  }

  /**
   A run ends in shutdown exactly when one of its events was the exit of the last living
   process, and in a panic exactly when one was a fork with a full table.
   */
  lemma RunEndsExactly(v: View, n: nat, events: seq<Event>)
    requires Inv(v, n)
    ensures Run(v, events).Shutdown? <==> exists i: nat :: EndsAt(v, n, events, i, true)
    ensures Run(v, events).Panics? <==> exists i: nat :: EndsAt(v, n, events, i, false)
  {
    hide Run, EndsAt, Inv;
    if !Run(v, events).Runs? {
      var i := FindEnd(v, n, events);
    }
    forall i: nat | EndsAt(v, n, events, i, true) ensures Run(v, events).Shutdown? {
      OverAt(v, n, events, i, true);
    }
    forall i: nat | EndsAt(v, n, events, i, false) ensures Run(v, events).Panics? {
      OverAt(v, n, events, i, false);
    }
  }

  lemma WaiterMovesUp(v: View, n: nat, e: Event, k: nat)
    requires Inv(v, n) && k < |v.queue| && Step(v, e).Runs?
    ensures var v' := Step(v, e).view;
      if !Schedules(v, e) then k < |v'.queue| && v'.queue[k] == v.queue[k] && v'.current == v.current
      else if k == 0 then v'.current == v.queue[0]
      else k - 1 < |v'.queue| && v'.queue[k - 1] == v.queue[k]
  {
    match e {
      case Fork => ForkKeeps(v, n);
      case Yield => GiveUpRotates(v, n);
      case Wait(_) => GiveUpRotates(v, n);
      case Exit =>
      case Tick =>
        var t := v.procs[v.current].ticks + 1;
        if t > TIME_SLICE_LEN {
          TickRotates(v, n);
        }
    }
  }

  lemma TickRotates(v: View, n: nat)
    requires Inv(v, n) && v.procs[v.current].ticks + 1 > TIME_SLICE_LEN
    ensures var all := v.queue + [v.current];
      && Step(v, Tick).Runs? && Step(v, Tick).view.current == all[0] && Step(v, Tick).view.queue == all[1..]
      && Step(v, Tick).view.procs == v.procs[v.current := v.procs[v.current].(ticks := 0)]
  {
    assert SlotOk(v.procs, n, v.current);
    var w := v.(procs := v.procs[v.current := v.procs[v.current].(ticks := 0)]);
    forall i: nat | i < NPROC ensures SlotOk(w.procs, n, i) {
      assert SlotOk(v.procs, n, i);
    }
    assert Inv(w, n);
    GiveUpRotates(w, n);
  }

  /**
   Bounded waiting, in schedule calls: while a run has called schedule c <= k times, the
   process that was at position k of the queue is at position k - c and does not run; the
   step that makes call k + 1 dispatches it.
   */
  lemma {:induction false} DispatchedByCallNumber(v: View, n: nat, events: seq<Event>, k: nat)
    requires Inv(v, n) && k < |v.queue| && Run(v, events).Runs?
    ensures var v', c := Run(v, events).view, Calls(v, events);
      c <= k ==> k - c < |v'.queue| && v'.queue[k - c] == v.queue[k] && v'.current != v.queue[k]
    ensures events != [] && Calls(v, events[..|events| - 1]) == k && Calls(v, events) == k + 1 ==>
      Run(v, events).view.current == v.queue[k]
    decreases |events|
  {
    hide Run, Calls, Step, Schedules, Forks;
    RunUnfolds(v, events);
    if events == [] {
      assert v.queue[k] in v.queue;
    } else {
      var before, e := events[..|events| - 1], events[|events| - 1];
      DispatchedByCallNumber(v, n, before, k);
      RunKeepsPartition(v, n, before);
      RunKeepsPartition(v, n, events);
      var c := Calls(v, before);
      if c <= k {
        WaiterMovesUp(Run(v, before).view, n + Forks(before), e, k - c);
        var v' := Run(v, events).view;
        if Calls(v, events) <= k {
          assert v'.queue[k - Calls(v, events)] in v'.queue;
        }
      }
    }
  }

  lemma RunUnfolds(v: View, events: seq<Event>)
    requires Run(v, events).Runs?
    ensures events == [] ==> Run(v, events) == Runs(v) && Calls(v, events) == 0
    ensures events != [] ==>
      var before, e := events[..|events| - 1], events[|events| - 1];
      && Run(v, before).Runs? && InRange(Run(v, before).view) && Run(v, events) == Step(Run(v, before).view, e)
      && Calls(v, events) == Calls(v, before) + if Schedules(Run(v, before).view, e) then 1 else 0
  {
  }

  lemma SliceBound(v: View, n: nat, e: Event)
    requires Inv(v, n) && Step(v, e).Runs?
    ensures var v' := Step(v, e).view;
      (if e.Tick? then 1 else 0) + v.procs[v.current].ticks <=
      v'.procs[v'.current].ticks + if Schedules(v, e) then 3 else 0
  {
    StepKeepsPartition(v, n, e);
    var v' := Step(v, e).view;
    assert SlotOk(v.procs, n, v.current);
    assert SlotOk(v'.procs, if e.Fork? then n + 1 else n, v'.current);
    if e.Fork? { ForkKeeps(v, n); }
  }

  lemma TicksUnfold(events: seq<Event>)
    ensures events == [] ==> Ticks(events) == 0
    ensures events != [] ==>
      Ticks(events) == Ticks(events[..|events| - 1]) + if events[|events| - 1].Tick? then 1 else 0
  {
  }

  /** Ticks force schedule calls: within three ticks of a call there is another. */
  lemma {:induction false} TicksForceCalls(v: View, n: nat, events: seq<Event>)
    requires Inv(v, n) && Run(v, events).Runs?
    ensures var v' := Run(v, events).view;
      v'.current < |v'.procs| && Ticks(events) <= 3 * Calls(v, events) + v'.procs[v'.current].ticks
    ensures Ticks(events) <= 3 * Calls(v, events) + 2
    decreases |events|
  {
    hide Run, Calls, Step, Schedules, Forks, Ticks, Distinct;
    RunUnfolds(v, events);
    TicksUnfold(events);
    RunKeepsPartition(v, n, events);
    var v' := Run(v, events).view;
    assert SlotOk(v'.procs, n + Forks(events), v'.current);
    if events == [] {
      assert SlotOk(v.procs, n, v.current);
    } else {
      var before, e := events[..|events| - 1], events[|events| - 1];
      TicksForceCalls(v, n, before);
      RunKeepsPartition(v, n, before);
      SliceBound(Run(v, before).view, n + Forks(before), e);
    }
  }

  /** After k + 1 calls of schedule there was a moment when the process at position k ran. */
  lemma {:induction false} DispatchedAtSomePoint(v: View, n: nat, events: seq<Event>, k: nat) returns (i: nat)
    requires Inv(v, n) && k < |v.queue| && Run(v, events).Runs? && Calls(v, events) >= k + 1
    ensures i <= |events| && Calls(v, events[..i]) == k + 1
    ensures Run(v, events[..i]).Runs? && Run(v, events[..i]).view.current == v.queue[k]
    decreases |events|
  {
    hide Run, Calls, Step, Schedules, Inv;
    RunUnfolds(v, events);
    var before := events[..|events| - 1];
    if Calls(v, before) >= k + 1 {
      i := DispatchedAtSomePoint(v, n, before, k);
      assert before[..i] == events[..i];
    } else {
      i := |events|;
      assert events[..i] == events;
      DispatchedByCallNumber(v, n, events, k);
    }
  }

  /** Bounded waiting, in timer ticks: within 3(k + 1) ticks the process at position k has run. */
  lemma DispatchedWithinTicks(v: View, n: nat, events: seq<Event>, k: nat) returns (i: nat)
    requires Inv(v, n) && k < |v.queue| && Run(v, events).Runs? && Ticks(events) >= 3 * (k + 1)
    ensures i <= |events| && Run(v, events[..i]).Runs? && Run(v, events[..i]).view.current == v.queue[k]
  {
    hide Run, Calls, Ticks, Inv;
    TicksForceCalls(v, n, events);
    i := DispatchedAtSomePoint(v, n, events, k);
  }

  /** No run ends in shutdown while a process waits that has not been dispatched. */
  lemma NoShutdownWhileWaiting(v: View, n: nat, events: seq<Event>, e: Event, k: nat)
    requires Inv(v, n) && k < |v.queue| && Run(v, events).Runs? && Calls(v, events) <= k
    ensures InRange(Run(v, events).view) && !Step(Run(v, events).view, e).Shutdown?
  {
    hide Run, Calls, Step, Forks;
    DispatchedByCallNumber(v, n, events, k);
    RunKeepsPartition(v, n, events);
    StepKeepsPartition(Run(v, events).view, n + Forks(events), e);
    OnlyZombiesLeft(Run(v, events).view, n + Forks(events));
  }

  // ---- each step in full ----

  /** The current process goes behind all that wait, and the first of them runs. */
  ghost predicate Rotated(v: View, procs: seq<Info>, v': View) {
    v'.procs == procs && [v'.current] + v'.queue == v.queue + [v.current]
  }

  lemma ExitInFull(v: View, n: nat)
    requires Inv(v, n)
    ensures Step(v, Exit).Shutdown? <==> v.queue == []
    ensures v.queue != [] ==>
      Step(v, Exit) ==
      Runs(View(v.procs[v.current := v.procs[v.current].(status := Zombie)], v.queue[1..], v.queue[0]))
  {
    hide Distinct, SlotOk;
    ExitKeeps(v, n);
  }

  lemma YieldInFull(v: View, n: nat)
    requires Inv(v, n)
    ensures Step(v, Yield).Runs? && Rotated(v, v.procs, Step(v, Yield).view)
  {
    GiveUpRotates(v, n);
  }

  /** wait gives up the processor exactly when some slot names the caller as its parent. */
  lemma WaitInFull(v: View, n: nat, pid: int)
    requires Inv(v, n)
    ensures Step(v, Wait(pid)).Runs?
    ensures if exists i :: 0 <= i < 32 && v.procs[i].parent == v.current
      then Rotated(v, v.procs, Step(v, Wait(pid)).view) else Step(v, Wait(pid)) == Runs(v)
  {
    GiveUpRotates(v, n);
  }

  /** fork fills the slot behind the n that are taken, unless all 32 are, and queues it. */
  lemma ForkInFull(v: View, n: nat)
    requires Inv(v, n)
    ensures Step(v, Fork).Panics? <==> n == 32
    ensures n < 32 ==>
      Step(v, Fork) ==
      Runs(View(v.procs[n := v.procs[n].(status := Ready, parent := v.current)], v.queue + [n], v.current))
  {
    ForkKeeps(v, n);
    SlotsGiveFirstFree(v, n);
    if n < 32 {
      assert SlotOk(v.procs, n, n);
      var w := v.(procs := v.procs[n := v.procs[n].(status := Ready, parent := v.current)]);
      assert w.procs[n := w.procs[n].(status := Ready)] == w.procs;
    }
  }

  /** A tick is charged to the current process; only the third one takes the processor away. */
  lemma TickInFull(v: View, n: nat)
    requires Inv(v, n)
    ensures Step(v, Tick).Runs? && 0 <= v.procs[v.current].ticks <= 2
    ensures v.procs[v.current].ticks < 2 ==>
      Step(v, Tick).view ==
      v.(procs := v.procs[v.current := v.procs[v.current].(ticks := v.procs[v.current].ticks + 1)])
    ensures v.procs[v.current].ticks == 2 ==>
      Rotated(v, v.procs[v.current := v.procs[v.current].(ticks := 0)], Step(v, Tick).view)
  {
    assert SlotOk(v.procs, n, v.current);
    if v.procs[v.current].ticks == 2 { TickRotates(v, n); }
  }

  // ---- time slices over runs ----

  /** The ticks of a run charged to process p. */
  function TicksOf(v: View, events: seq<Event>, p: nat): nat {
    if events == [] then 0 else
    TicksOf(v, events[..|events| - 1], p) +
    match Run(v, events[..|events| - 1])
    case Runs(u) => if events[|events| - 1].Tick? && u.current == p then 1 else 0
    case _ => 0
  }

  /** The slices of process p that ended by a tick. */
  function SlicesOf(v: View, events: seq<Event>, p: nat): nat {
    if events == [] then 0 else
    SlicesOf(v, events[..|events| - 1], p) +
    match Run(v, events[..|events| - 1])
    case Runs(u) =>
      if events[|events| - 1].Tick? && u.current == p && InRange(u) && Schedules(u, Tick) then 1 else 0
    case _ => 0
  }

  /** Only a tick of the process changes what it was charged. */
  lemma TicksStep(v: View, n: nat, e: Event, p: nat)
    requires Inv(v, n) && Step(v, e).Runs? && p < 32
    ensures |Step(v, e).view.procs| == 32
    ensures Step(v, e).view.procs[p].ticks ==
      if !e.Tick? || v.current != p then v.procs[p].ticks
      else if v.procs[p].ticks == 2 then 0 else v.procs[p].ticks + 1
    ensures Schedules(v, Tick) <==> v.procs[v.current].ticks == 2
  {
    hide Distinct, Step;
    TickInFull(v, n);
    match e {
      case Fork => ForkInFull(v, n);
      case Yield => YieldInFull(v, n);
      case Wait(pid) => WaitInFull(v, n, pid);
      case Exit => ExitInFull(v, n);
      case Tick =>
    }
  }

  /**
   Over every run, whatever else happens, a time slice is exactly three ticks: what a process
   was charged goes into whole slices of three and into what it has used of the next one.
   */
  lemma {:induction false} SlicesAreThreeTicks(v: View, n: nat, events: seq<Event>, p: nat)
    requires Inv(v, n) && Run(v, events).Runs? && p < 32
    ensures var v' := Run(v, events).view;
      |v'.procs| == 32 &&
      v.procs[p].ticks + TicksOf(v, events, p) == 3 * SlicesOf(v, events, p) + v'.procs[p].ticks
    decreases |events|
  {
    hide Step, Schedules, Inv, Forks;
    RunUnfolds(v, events);
    RunKeepsPartition(v, n, events);
    InvSize(v, n);
    if events != [] {
      var before, e := events[..|events| - 1], events[|events| - 1];
      SlicesAreThreeTicks(v, n, before, p);
      RunKeepsPartition(v, n, before);
      TicksStep(Run(v, before).view, n + Forks(before), e, p);
    }
  }

  lemma InvSize(v: View, n: nat)
    requires Inv(v, n)
    ensures |v.procs| == 32
  {
  }

  // ---- the forest of processes ----

  /** Parents are older, so ancestry ends at process 0. */
  ghost predicate Descends(v: View, p: int, k: nat)
    decreases k
  {
    if k == 0 then p == 0 else 0 < p < |v.procs| && Descends(v, v.procs[p].parent, k - 1)
  }

  lemma {:induction false} EveryProcessDescendsFromZero(v: View, n: nat, p: nat) returns (k: nat)
    requires Inv(v, n) && p < n
    ensures Descends(v, p, k) && k <= p
    decreases p
  {
    if p == 0 {
      k := 0;
    } else {
      assert SlotOk(v.procs, n, p);
      k := EveryProcessDescendsFromZero(v, n, v.procs[p].parent);
      k := k + 1;
    }
  }

  lemma ForkPidsIncrease(v: View, n: nat, events: seq<Event>)
    requires Inv(v, n) && Run(v, events).Runs?
    ensures FirstFree(v.procs) == n && FirstFree(Run(v, events).view.procs) == n + Forks(events)
  {
    hide Run, Forks, FirstFree, Inv;
    RunKeepsPartition(v, n, events);
    SlotsGiveFirstFree(v, n);
    SlotsGiveFirstFree(Run(v, events).view, n + Forks(events));
  }
}
