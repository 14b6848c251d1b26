/**
 The process table and the ready queue as the kernel keeps them: slots whose queue_next
 links thread the queue (kernel/sched.c, kernel/process.c, kernel/strap.c,
 kernel/syscall.c).  Every operation is proved against the step machine of Schedule.
 */
module Scheduler {
  import opened Schedule

  /** No slot: a null pointer. */
  const NONE: int := -1

  datatype Pcb = Pcb(status: Status, parent: int, next: int, ticks: int)

  function InfoOf(p: Pcb): Info { Info(p.status, p.parent, p.ticks) }

  /** How an operation ends: back in user mode, with the machine off, or in a panic. */
  datatype Ending = Back | Off | Panicked

  /** The link after position i of the queue. */
  ghost predicate LinkOk(procs: seq<Pcb>, queue: seq<nat>, i: nat)
    requires i < |queue|
  {
    queue[i] < |procs| && procs[queue[i]].next == if i + 1 < |queue| then queue[i + 1] else NONE
  }

  /** Following the links from head visits exactly the queue, each slot once. */
  ghost predicate Linked(procs: seq<Pcb>, head: int, queue: seq<nat>) {
    && head == (if queue == [] then NONE else queue[0])
    && (forall i: nat {:trigger LinkOk(procs, queue, i)} :: i < |queue| ==> LinkOk(procs, queue, i))
    && Distinct(queue)
  }

  lemma LinkedInRange(procs: seq<Pcb>, head: int, queue: seq<nat>)
    requires Linked(procs, head, queue)
    ensures forall i :: 0 <= i < |queue| ==> queue[i] < |procs|
  {
    forall i: nat | i < |queue| ensures queue[i] < |procs| {
      assert LinkOk(procs, queue, i);
    }
  }

  /** Changing slots outside the queue, or anything but links, keeps the links. */
  lemma LinksStay(procs: seq<Pcb>, procs': seq<Pcb>, head: int, queue: seq<nat>)
    requires Linked(procs, head, queue) && |procs'| == |procs|
    requires forall i :: 0 <= i < |procs| && i in queue ==> procs'[i].next == procs[i].next
    ensures Linked(procs', head, queue)
  {
    forall i: nat | i < |queue| ensures LinkOk(procs', queue, i) {
      assert LinkOk(procs, queue, i);
    }
  }

  lemma LinksExtend(procs: seq<Pcb>, procs': seq<Pcb>, head: int, queue: seq<nat>, p: nat)
    requires Linked(procs, head, queue) && queue != [] && p < |procs| && p !in queue && |procs'| == |procs|
    requires var last := queue[|queue| - 1];
      && last < |procs| && procs'[last].next == p && procs'[p].next == NONE
      && forall i :: 0 <= i < |procs| && i != last && i != p ==> procs'[i].next == procs[i].next
    ensures Linked(procs', head, queue + [p])
  {
    var q := queue + [p];
    forall i: nat | i < |q| ensures LinkOk(procs', q, i) {
      if i < |queue| { assert LinkOk(procs, queue, i); }
    }
  }

  lemma LinksDrop(procs: seq<Pcb>, head: int, queue: seq<nat>)
    requires Linked(procs, head, queue) && queue != []
    ensures queue[0] < |procs| && Linked(procs, procs[queue[0]].next, queue[1..])
  {
    assert LinkOk(procs, queue, 0);
    forall i: nat | i < |queue[1..]| ensures LinkOk(procs, queue[1..], i) {
      assert LinkOk(procs, queue, i + 1);
    }
  }

  function Infos(procs: seq<Pcb>): (r: seq<Info>)
    ensures |r| == |procs| && forall i :: 0 <= i < |r| ==> r[i] == InfoOf(procs[i])
  {
    seq(|procs|, i requires 0 <= i < |procs| => InfoOf(procs[i]))
  }

  /** No process yet. */
  function EmptyTable(): View { View(seq(NPROC, _ => Info(Free, NONE, 0)), [], 0) }

  class Scheduler {
    var procs: seq<Pcb>
    var head: int
    var current: nat
    ghost var queue: seq<nat>

    ghost predicate Valid()
      reads this
    {
      |procs| == NPROC && current < NPROC && Linked(procs, head, queue)
    }

    ghost function V(): (v: View)
      reads this
      requires Valid()
      ensures InRange(v)
    {
      LinkedInRange(procs, head, queue);
      View(Infos(procs), queue, current)
    }

    /** The operation ended as the step machine says. */
    ghost predicate Reached(ending: Ending, result: Result)
      reads this
    {
      match result
      case Runs(v) => ending == Back && Valid() && V() == v
      case Shutdown => ending == Off
      case Panics => ending == Panicked
    }

    /** init_proc_pool, with an empty ready queue. */
    constructor ()
      ensures Valid() && V() == EmptyTable()
    {
      var pool := [];
      while |pool| < NPROC
        invariant |pool| <= NPROC
        invariant forall i :: 0 <= i < |pool| ==> pool[i] == Pcb(Free, NONE, NONE, 0)
      {
        pool := pool + [Pcb(Free, NONE, NONE, 0)];
      }
      procs, head, current, queue := pool, NONE, 0, [];
    }

    method SetStatusOf(p: nat, status: Status)
      requires Valid() && p < NPROC
      modifies this`procs
      ensures Valid() && V() == SetStatus(old(V()), p, status)
      ensures procs == old(procs)[p := old(procs)[p].(status := status)]
    {
      procs := procs[p := procs[p].(status := status)];
      LinksStay(old(procs), procs, head, queue);
    }

    method InsertToReadyQueue(p: nat)
      requires Valid() && p < NPROC
      modifies this`procs, this`head, this`queue
      ensures Valid() && V() == Insert(old(V()), p)
      ensures queue == if p in old(queue) then old(queue) else old(queue) + [p]
      ensures p !in old(queue) ==> procs[p].status == Ready
    {
      if head == NONE {
        procs := procs[p := procs[p].(status := Ready, next := NONE)];
        head, queue := p, [p];
        return;
      }
      ghost var i: nat := 0;
      assert LinkOk(procs, queue, 0);
      var q: nat := head;
      while procs[q].next != NONE
        invariant i < |queue| && q == queue[i] && q < NPROC
        invariant forall j :: 0 <= j < i ==> queue[j] != p
        decreases |queue| - i
      {
        if q == p { return; }
        assert LinkOk(procs, queue, i);
        i := i + 1;
        assert LinkOk(procs, queue, i);
        q := procs[q].next;
      }
      assert LinkOk(procs, queue, i);
      if q == p { return; }
      procs := procs[q := procs[q].(next := p)];
      procs := procs[p := procs[p].(status := Ready, next := NONE)];
      LinksExtend(old(procs), procs, head, queue, p);
      queue := queue + [p];
    }

    /** schedule: returns to the process at the head of the queue. */
    method DispatchNext() returns (ending: Ending)
      requires Valid()
      modifies this`head, this`current, this`queue
      ensures Reached(ending, Dispatch(old(V())))
    {
      if head == NONE {
        var shutdown, i := true, 0;
        while i < NPROC
          invariant 0 <= i <= NPROC
          invariant shutdown <==> forall j :: 0 <= j < i ==> Over(InfoOf(procs[j]))
        {
          if procs[i].status != Free && procs[i].status != Zombie { shutdown := false; }
          i := i + 1;
        }
        return if shutdown then Off else Panicked;
      }
      LinksDrop(procs, head, queue);
      if procs[head].status != Ready { return Panicked; }
      current := head;
      head := procs[head].next;
      queue := queue[1..];
      return Back;
    }

    /** The current process goes to the end of the queue. */
    method Rotate() returns (ending: Ending)
      requires Valid()
      modifies this
      ensures Reached(ending, GiveUp(old(V())))
    {
      SetStatusOf(current, Ready);
      InsertToReadyQueue(current);
      ending := DispatchNext();
    }

    method SysUserYield() returns (ending: Ending)
      requires Valid()
      modifies this
      ensures Reached(ending, Step(old(V()), Yield))
    {
      ending := Rotate();
    }

    method SysUserExit() returns (ending: Ending)
      requires Valid()
      modifies this
      ensures Reached(ending, Step(old(V()), Exit))
    {
      SetStatusOf(current, Zombie);
      ending := DispatchNext();
    }

    /** wait: without a child it returns (-1) at once; with one, the process gives up the processor. */
    method SysUserWait(pid: int) returns (ending: Ending, found: bool)
      requires Valid()
      modifies this
      ensures Reached(ending, Step(old(V()), Wait(pid)))
      ensures found <==> exists i :: 0 <= i < 32 && old(procs)[i].parent == old(current)
      ensures !found ==> ending == Back && current == old(current)
    {
      var flag, i := -1, 0;
      while i < NPROC
        invariant 0 <= i <= NPROC
        invariant flag != -1 <==> exists j :: 0 <= j < i && procs[j].parent == current
      {
        if procs[i].parent == current {
          flag := if i == pid then 1 else 0;
        }
        i := i + 1;
      }
      found := flag != -1;
      if flag == -1 {
        ending := Back;
      } else {
        ending := Rotate();
      }
    }

    /** The slot alloc_process takes: the first FREE one. */
    method FreeSlot() returns (i: nat)
      requires Valid()
      ensures i == FirstFree(V().procs)
    {
      i := 0;
      while i < NPROC && procs[i].status != Free
        invariant 0 <= i <= NPROC
        invariant forall j :: 0 <= j < i ==> procs[j].status != Free
      {
        i := i + 1;
      }
      ghost var infos, n := Infos(procs), FirstFree(Infos(procs));
      assert n < NPROC ==> infos[n].status.Free?;
      assert i < NPROC ==> infos[i].status.Free?;
    }

    /** The end of do_fork: the child in slot n becomes ready. */
    method Enlist(n: nat)
      requires Valid() && n == FirstFree(V().procs) && n < NPROC
      modifies this
      ensures Reached(Back, Step(old(V()), Fork))
    {
      procs := procs[n := procs[n].(status := Ready, parent := current)];
      LinksStay(old(procs), procs, head, queue);
      InsertToReadyQueue(n);
    }

    /** rrsched: a process that has used up its time slice gives up the processor. */
    method Rrsched() returns (ending: Ending)
      requires Valid()
      modifies this
      ensures Reached(ending, Step(old(V()), Tick))
      ensures old(procs[current].ticks) < 2 ==>
        && ending == Back && current == old(current) && queue == old(queue)
        && procs == old(procs)[current := old(procs[current]).(ticks := old(procs[current].ticks) + 1)]
    {
      var t := procs[current].ticks + 1;
      procs := procs[current := procs[current].(ticks := t)];
      LinksStay(old(procs), procs, head, queue);
      if t > TIME_SLICE_LEN {
        ghost var was := procs;
        procs := procs[current := procs[current].(ticks := 0)];
        LinksStay(was, procs, head, queue);
        assert Infos(procs) == Infos(old(procs))[current := Infos(old(procs))[current].(ticks := 0)];
        ending := Rotate();
      } else {
        assert Infos(procs) == Infos(old(procs))[current := Infos(old(procs))[current].(ticks := t)];
        ending := Back;
      }
    }

    /** The end of s_start: the first program is put in the queue and dispatched. */
    method Start() returns (ending: Ending)
      requires Valid() && V() == EmptyTable()
      modifies this
      ensures ending == Back && Valid() && Inv(V(), 1) && V() == FirstView()
    {
      InsertToReadyQueue(0);
      ending := DispatchNext();
      forall i: nat | i < NPROC ensures SlotOk(V().procs, 1, i) {
      }
    }
  }
}
