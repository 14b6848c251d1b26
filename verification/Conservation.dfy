/**
 What allocation and release keep over every run (kernel/pmm.c), and the one misuse that
 the list does not survive.
 */
module Conservation {
  import opened Words
  import opened Sv39
  import opened Layout

  datatype Event = Alloc | Release(f: nat)

  ghost function Step(s: State, e: Event): State
    requires Well(s)
  {
    match e
    case Alloc => if s.free == [] then s else Take(s, Taken)
    case Release(f) => if f in s.mem then Give(s, f) else s
  }

  /** A page may be released while it is handed out. */
  ghost predicate Outstanding(s: State, f: nat) {
    f in s.roles && s.roles[f].Taken?
  }

  ghost predicate Disciplined(s: State, events: seq<Event>)
    requires Well(s)
    decreases |events|
  {
    events != [] ==>
      && (events[0].Release? ==> Outstanding(s, events[0].f))
      && (StepWell(s, events[0]); Disciplined(Step(s, events[0]), events[1..]))
  }

  ghost function Run(s: State, events: seq<Event>): State
    requires Well(s) && Disciplined(s, events)
    decreases |events|
  {
    if events == [] then s else
    StepWell(s, events[0]);
    Run(Step(s, events[0]), events[1..])
  }

  ghost function FreeOrOutstanding(s: State): set<nat> {
    set f | f in s.roles && (s.roles[f].Free? || s.roles[f].Taken?)
  }

  lemma StepWell(s: State, e: Event)
    requires Well(s) && (e.Release? ==> Outstanding(s, e.f))
    ensures Well(Step(s, e))
    ensures FreeOrOutstanding(Step(s, e)) == FreeOrOutstanding(s)
    ensures SameLeaves(s, Step(s, e))
  {
    if e.Release? {
      GiveWell(s, e.f);
    } else if s.free != [] {
      assert s.free[0] in s.free;
      TakeWell(s, Taken);
    }
  }

  /**
   Over every disciplined run the list stays a list, free and outstanding pages together
   stay the same set, and no page is both.
   */
  lemma {:induction false} FreeListConservation(s: State, events: seq<Event>)
    requires Well(s) && Disciplined(s, events)
    ensures Well(Run(s, events))
    ensures FreeOrOutstanding(Run(s, events)) == FreeOrOutstanding(s)
    ensures forall f :: f in Run(s, events).free ==> !Outstanding(Run(s, events), f)
    ensures SameLeaves(s, Run(s, events))
    decreases |events|
  {
    if events != [] {
      StepWell(s, events[0]);
      FreeListConservation(Step(s, events[0]), events[1..]);
    }
  }

  /** A released page is the next one handed out, and handing it out restores the list. */
  lemma ReleaseThenAlloc(s: State, f: nat)
    requires Well(s) && Outstanding(s, f)
    ensures Well(Give(s, f))
    ensures Give(s, f).free[0] == f
    ensures Take(Give(s, f), Taken).free == s.free
    ensures Take(Give(s, f), Taken).head == s.head
    ensures Take(Give(s, f), Taken).roles == s.roles
  {
    GiveWell(s, f);
  }

  ghost predicate SomeFreeList(m: Memory, head: nat) {
    exists free :: IsFreeList(m, head, free)
  }

  /**
   Releasing a page leaves a finite list without repetition exactly when the page was not
   on the list: a second release closes a cycle.
   */
  lemma DoubleFreeBreaksTheList(m: Memory, head: nat, free: seq<nat>, f: nat)
    requires IsFreeList(m, head, free) && f in m && f > 0 && |m[f]| == ENTRIES
    ensures SomeFreeList(m[f := Put(m[f], 0, head)], f * PAGE_SIZE) <==> f !in free
  {
    var m' := m[f := Put(m[f], 0, head)];
    if f !in free {
      PushList(m, head, free, f);
    } else {
      var k :| 0 <= k < |free| && free[k] == f;
      forall free' | IsFreeList(m', f * PAGE_SIZE, free') ensures false {
        CycleFollows(m, head, free, f, k, m', free', k);
      }
    }
  }

  lemma {:induction false} CycleFollows(
      m: Memory, head: nat, free: seq<nat>, f: nat, k: nat, m': Memory, free': seq<nat>, j: nat)
    requires IsFreeList(m, head, free) && f in m && |m[f]| == ENTRIES
    requires k < |free| && free[k] == f && m' == m[f := Put(m[f], 0, head)]
    requires IsFreeList(m', f * PAGE_SIZE, free') && j <= k
    ensures j + 1 < |free'| && free'[0] == f && free'[j + 1] == free[j]
  {
    if j == 0 {
      assert free[0] in free && NextOk(m', free', 0);
    } else {
      CycleFollows(m, head, free, f, k, m', free', j - 1);
      assert free[j] in free && NextOk(m', free', j) && NextOk(m, free, j - 1);
    }
  }
}
