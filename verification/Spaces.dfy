/**
 The invariant of the process memories: every frame has exactly the use its owner's
 records and page tables give it.
 */
module Spaces {
  import opened Words
  import opened Sv39
  import opened Layout
  import opened Pmm
  import opened Vmm
  import opened Hardware
  import opened Ownership
  import opened UserMemory

  const USER_STACK_TOP: nat := 0x7fff_f000
  const STACK_VPN: nat := USER_STACK_TOP / PAGE_SIZE - 1

  /** The pages of the recorded code regions. */
  function CodePages(regions: seq<Region>): set<nat> {
    set i | 0 <= i < |regions| && regions[i].segment.CodeSegment? :: regions[i].va / PAGE_SIZE
  }

  /** The region table starts with stack, context and system; loaded segments follow. */
  ghost predicate RegionsOk(regions: seq<Region>) {
    && |regions| >= 3
    && regions[0] == Region(STACK_VPN * PAGE_SIZE, 1, StackSegment)
    && regions[1].segment.ContextSegment? && regions[2].segment.SystemSegment?
    && (forall i :: 3 <= i < |regions| ==>
          && (regions[i].segment.CodeSegment? || regions[i].segment.DataSegment?)
          && regions[i].va % PAGE_SIZE == 0 && regions[i].va < WORD_LIMIT)
  }

  /** The kernel, and not the program, sees frame f at its own address, to write or to execute. */
  ghost predicate KernelSees(s: State, pid: nat, f: nat, execute: bool) {
    var w := LeafWord(s, UserTree(pid), f);
    && Valid(w) && FrameOf(w) == f && !UserPage(w) && Readable(w) && (if execute then Executable(w) else Writable(w))
  }

  /** The way into the kernel: the second and third regions are the trapframe and the trap section, and it sees both. */
  ghost predicate WayIn(s: State, p: Space, pid: nat)
    requires |p.regions| >= 3
  {
    var trap := p.regions[2].va / PAGE_SIZE;
    && p.regions[1].va == p.trapframe * PAGE_SIZE && KernelSees(s, pid, p.trapframe, false)
    && trap in s.roles && s.roles[trap].Image? && KernelSees(s, pid, trap, true)
  }

  lemma WayStays(s: State, s': State, p: Space, pid: nat)
    requires |p.regions| >= 3 && WayIn(s, p, pid)
    requires forall v: nat :: Valid(LeafWord(s, UserTree(pid), v)) ==>
      || LeafWord(s', UserTree(pid), v) == LeafWord(s, UserTree(pid), v)
      || !KernelFrame(s, FrameOf(LeafWord(s, UserTree(pid), v)))
    requires p.trapframe in s.roles && s.roles[p.trapframe].Trapframe?
    requires forall g :: g in s.roles && s.roles[g].Image? ==> g in s'.roles && s'.roles[g].Image?
    ensures WayIn(s', p, pid)
  {
    hide LeafWord, Valid, FrameOf, UserPage, Readable, Writable, Executable;
    var trap := p.regions[2].va / PAGE_SIZE;
    assert LeafWord(s', UserTree(pid), p.trapframe) == LeafWord(s, UserTree(pid), p.trapframe);
    assert LeafWord(s', UserTree(pid), trap) == LeafWord(s, UserTree(pid), trap);
  }

  ghost predicate KernelFrame(s: State, f: nat) {
    f in s.roles && (s.roles[f].Trapframe? || s.roles[f].Image?)
  }

  ghost predicate SpaceOk(s: State, spaces: seq<Space>, pid: nat)
    requires pid < |spaces|
  {
    var p := spaces[pid];
    && Root(UserTree(pid)) in s.nodes && s.nodes[Root(UserTree(pid))] == p.root
    && p.trapframe in s.roles && s.roles[p.trapframe] == Trapframe(pid)
    && p.kernelStack in s.roles && s.roles[p.kernelStack] == KernelStack(pid)
    && p.regionTable in s.roles && s.roles[p.regionTable] == RegionTable(pid)
    && RegionsOk(p.regions) && WayIn(s, p, pid)
    && (pid > 0 ==> p.parent < pid)
  }

  ghost predicate OwnerOk(s: State, spaces: seq<Space>, exhausted: bool, f: nat)
    requires f in s.roles
  {
    match s.roles[f]
    case Trapframe(p) => p < |spaces| && spaces[p].trapframe == f
    case KernelStack(p) => p < |spaces| && spaces[p].kernelStack == f
    case RegionTable(p) => p < |spaces| && spaces[p].regionTable == f
    case Taken => false
    case Lost => exhausted
    case _ => true
  }

  ghost predicate IsCodeLeaf(s: State, pid: nat, v: nat) {
    var w := LeafWord(s, UserTree(pid), v);
    Valid(w) && FrameOf(w) in s.roles && s.roles[FrameOf(w)].Code?
  }

  /** Code is mapped exactly where it is recorded, and a child shares the frames of its parent. */
  ghost predicate CodeOk(s: State, spaces: seq<Space>, pid: nat, v: nat)
    requires pid < |spaces|
  {
    && (v in CodePages(spaces[pid].regions) <==> IsCodeLeaf(s, pid, v))
    && (pid > 0 && IsCodeLeaf(s, pid, v) ==>
          Leads(s, spaces[pid].parent, v, FrameOf(LeafWord(s, UserTree(pid), v))))
  }

  ghost predicate Inv(s: State, spaces: seq<Space>, trapSec: nat, exhausted: bool) {
    && Orderly(s, |spaces|, trapSec)
    && (forall pid: nat {:trigger SpaceOk(s, spaces, pid)} :: pid < |spaces| ==> SpaceOk(s, spaces, pid))
    && (forall f {:trigger OwnerOk(s, spaces, exhausted, f)} :: f in s.roles ==> OwnerOk(s, spaces, exhausted, f))
    && (forall pid: nat, v: nat {:trigger CodeOk(s, spaces, pid, v)} :: pid < |spaces| ==> CodeOk(s, spaces, pid, v))
  }

  lemma SpaceStays(s: State, s': State, spaces: seq<Space>, pid: nat, who: nat)
    requires pid < |spaces| && SpaceOk(s, spaces, pid) && Evolves(s, s', who, {}) && s.mem.Keys == s.roles.Keys
    ensures SpaceOk(s', spaces, pid)
  {
    hide RegionsOk, WayIn, LeafWord, Valid, FrameOf;
    var p := spaces[pid];
    SomeRegions(p.regions);
    assert p.trapframe in s.mem.Keys && p.kernelStack in s.mem.Keys && p.regionTable in s.mem.Keys;
    forall g | g in s.roles && s.roles[g].Image? ensures g in s'.roles && s'.roles[g].Image? {
      assert g in s.mem.Keys && g in s'.roles.Keys;
    }
    WayStays(s, s', p, pid);
  }

  lemma SomeRegions(regions: seq<Region>)
    requires RegionsOk(regions)
    ensures |regions| >= 3
  {
  }

  lemma CodeLeafStays(s: State, s': State, who: nat, p: nat, v: nat)
    requires Evolves(s, s', who, {}) && s.mem.Keys == s.roles.Keys
    requires var w := LeafWord(s, UserTree(p), v);
      Valid(w) && FrameOf(w) in s.roles ==> s.roles[FrameOf(w)].Plain()
    requires Valid(LeafWord(s, UserTree(p), v)) || !IsCodeLeaf(s', p, v)
    ensures IsCodeLeaf(s', p, v) == IsCodeLeaf(s, p, v)
    ensures Valid(LeafWord(s, UserTree(p), v)) ==> LeafWord(s', UserTree(p), v) == LeafWord(s, UserTree(p), v)
  {
    hide LeafWord, Valid, FrameOf, NodesStay;
    var w := LeafWord(s, UserTree(p), v);
    if Valid(w) {
      assert LeafWord(s', UserTree(p), v) == w;
      assert FrameOf(w) in s.roles.Keys ==> FrameOf(w) in s.mem.Keys;
    }
  }

  lemma CodeStays(s: State, s': State, spaces: seq<Space>, trapSec: nat, who: nat, pid: nat, v: nat)
    requires LeavesOwned(s, |spaces|, trapSec) && pid < |spaces| && CodeOk(s, spaces, pid, v)
    requires pid > 0 ==> spaces[pid].parent < pid
    requires Evolves(s, s', who, {}) && s.mem.Keys == s.roles.Keys
    requires Valid(LeafWord(s, UserTree(pid), v)) || !IsCodeLeaf(s', pid, v)
    ensures CodeOk(s', spaces, pid, v)
  {
    hide LeafWord, Valid, FrameOf, Evolves, IsCodeLeaf;
    PlainTarget(s, |spaces|, trapSec, pid, v);
    CodeLeafStays(s, s', who, pid, v);
    if pid > 0 && IsCodeLeaf(s, pid, v) {
      LeadsStays(s, s', who, spaces[pid].parent, v);
    }
  }

  lemma LeadsStays(s: State, s': State, who: nat, p: nat, v: nat)
    requires Evolves(s, s', who, {}) && Valid(LeafWord(s, UserTree(p), v))
    ensures LeafWord(s', UserTree(p), v) == LeafWord(s, UserTree(p), v)
  {
    hide LeafWord, Valid;
  }

  lemma PlainTarget(s: State, n: nat, trapSec: nat, pid: nat, v: nat)
    requires LeavesOwned(s, n, trapSec) && pid < n
    ensures var w := LeafWord(s, UserTree(pid), v);
      Valid(w) && FrameOf(w) in s.roles ==> s.roles[FrameOf(w)].Plain() && !s.roles[FrameOf(w)].Taken?
  {
    hide LeafWord, Valid, FrameOf;
    assert LeafOk(s, trapSec, pid, v);
  }

  /** Frames new in use are private, or lost when the pool ran out. */
  ghost predicate NewUses(s: State, s': State, exhausted: bool) {
    forall f :: f in s'.roles && s'.roles[f].Plain() ==>
      (f in s.roles && s.roles[f].Plain()) || s'.roles[f].Private? || (s'.roles[f].Lost? && exhausted)
  }

  /** A step that only adds private pages to one process keeps the invariant. */
  lemma InvEvolves(s: State, s': State, spaces: seq<Space>, trapSec: nat, lost: bool, lost': bool, who: nat)
    requires Inv(s, spaces, trapSec, lost) && (lost ==> lost')
    requires Evolves(s, s', who, {}) && Orderly(s', |spaces|, trapSec) && NewUses(s, s', lost')
    requires forall p: nat, v: nat {:trigger IsCodeLeaf(s', p, v)} ::
      p < |spaces| && IsCodeLeaf(s', p, v) ==> Valid(LeafWord(s, UserTree(p), v))
    ensures Inv(s', spaces, trapSec, lost')
  {
    hide LeafWord, Valid, FrameOf, LeavesStay, NodesStay, TreesOk, FreeOk, LeavesOwned, TreesOwned, IsCodeLeaf,
      SpaceOk, CodeOk;
    assert s.mem.Keys == s.roles.Keys;
    forall pid: nat | pid < |spaces| ensures SpaceOk(s', spaces, pid) {
      assert SpaceOk(s, spaces, pid);
      SpaceStays(s, s', spaces, pid, who);
    }
    forall pid: nat, v: nat | pid < |spaces| ensures CodeOk(s', spaces, pid, v) {
      assert CodeOk(s, spaces, pid, v) && SpaceOk(s, spaces, pid);
      ParentBelow(s, spaces, pid);
      assert IsCodeLeaf(s', pid, v) ==> Valid(LeafWord(s, UserTree(pid), v));
      CodeStays(s, s', spaces, trapSec, who, pid, v);
    }
    forall f | f in s'.roles ensures OwnerOk(s', spaces, lost', f) {
      assert f in s.roles.Keys && f in s.mem.Keys;
      assert OwnerOk(s, spaces, lost, f);
    }
  }

  lemma ParentBelow(s: State, spaces: seq<Space>, pid: nat)
    requires pid < |spaces| && SpaceOk(s, spaces, pid)
    ensures pid > 0 ==> spaces[pid].parent < pid
  {
  }

  /** A page taken from the list and given to a process as private memory keeps the invariant. */
  lemma PrivateGrantKeepsInv(s0: State, s1: State, s2: State, spaces: seq<Space>, trapSec: nat, exhausted: bool,
                             pid: nat, v: nat, f: nat, w: nat)
    requires Inv(s0, spaces, trapSec, exhausted) && pid < |spaces|
    requires (s1 == s0 && f !in s0.roles) || Took(s0, s1, f)
    requires Granted(s1, s2, pid, v, f, Private(pid, v), w) && FrameOf(w) == f && Orderly(s2, |spaces|, trapSec)
    ensures Inv(s2, spaces, trapSec, exhausted) && Evolves(s0, s2, pid, {})
    ensures LeafChanged(s0, s2, UserTree(pid), v, w) && !Mapped(s0, UserTree(pid), v)
  {
    hide LeafWord, Valid, FrameOf, Orderly, SpaceOk, OwnerOk, CodeOk, LeavesStay, NodesStay, FramesStay, LeafOk;
    PrivateGrantEvolves(s0, s1, s2, pid, v, f, w);
    forall p: nat, u: nat | p < |spaces| && IsCodeLeaf(s2, p, u) ensures Valid(LeafWord(s0, UserTree(p), u)) {
      assert LeafWord(s2, UserTree(p), u) == if p == pid && u == v then w else LeafWord(s0, UserTree(p), u);
    }
    InvEvolves(s0, s2, spaces, trapSec, exhausted, exhausted, pid);
  }

  lemma PrivateGrantEvolves(s0: State, s1: State, s2: State, pid: nat, v: nat, f: nat, w: nat)
    requires (s1 == s0 && f !in s0.roles) || Took(s0, s1, f)
    requires Granted(s1, s2, pid, v, f, Private(pid, v), w)
    ensures Evolves(s0, s2, pid, {}) && NewUses(s0, s2, false)
    ensures LeafChanged(s0, s2, UserTree(pid), v, w) && !Valid(LeafWord(s0, UserTree(pid), v))
    ensures f in s2.roles ==> s2.roles[f] == Private(pid, v)
  {
    hide LeafWord, Valid;
    if s1 == s0 {
      EvolvesFresh(s0, s2, pid, {f});
    } else {
      TookEvolves(s0, s1, f, pid);
      EvolvesTrans(s0, s1, s2, pid, {}, {f});
      EvolvesFresh(s0, s2, pid, {} + {f});
    }
  }

  lemma InvGives(s: State, spaces: seq<Space>, trapSec: nat, exhausted: bool, pid: nat)
    requires Inv(s, spaces, trapSec, exhausted) && pid < |spaces|
    ensures Orderly(s, |spaces|, trapSec) && Root(UserTree(pid)) in s.nodes
    ensures s.nodes[Root(UserTree(pid))] == spaces[pid].root
  {
    hide Orderly;
    assert SpaceOk(s, spaces, pid);
  }

  lemma TakenMayLead(s: State, s1: State, trapSec: nat, pid: nat, v: nat, f: nat)
    requires (s1 == s && f !in s.roles) || Took(s, s1, f)
    ensures MayLead(s1, trapSec, pid, v, f, Private(pid, v))
  {
  }

  lemma SameNodes(s: State, s1: State, f: nat, t: Tree, v: nat)
    requires s1 == s || Took(s, s1, f)
    ensures s1.nodes == s.nodes && Mapped(s1, t, v) == Mapped(s, t, v)
  {
  }

  /**
   The first page of the list is private to the process, with the words it had; the tables
   missing on its path are the next ones, and what follows is the list.
   */
  ghost predicate Handed(s: State, s': State, pid: nat, v: nat) {
    && ListDropped(Rest(s.free), s'.free, |Missing(s, UserTree(pid), v, 1)|)
    && NodesAdded(s.nodes, s'.nodes, Missing(s, UserTree(pid), v, 1))
    && (s.free != [] ==>
          var f := s.free[0];
          && f in s.mem && f in s'.mem && s'.mem[f] == s.mem[f]
          && f in s'.roles && s'.roles[f] == Private(pid, v))
  }

  lemma GrantIsHanded(s: State, s1: State, s2: State, pid: nat, v: nat, w: nat)
    requires Granted(s1, s2, pid, v, Link(s.free, 0) / PAGE_SIZE, Private(pid, v), w)
    requires s1.free == Rest(s.free) && s1.nodes == s.nodes && s1.mem == s.mem
    requires s.free != [] ==> Took(s, s1, Link(s.free, 0) / PAGE_SIZE)
    requires TablesAdded(s1, s2, PathOf(UserTree(pid), v) - s1.nodes.Keys)
    ensures Handed(s, s2, pid, v)
  {
    hide LeafWord, Valid, NodesAdded, PathOf, Missing, LeafChanged, LeavesStay, NodesStay, SameLeaves, RolesKept;
    OnePageMissing(s, UserTree(pid), v);
    if s.free != [] {
      OffsetFacts(s.free[0], 0);
      assert s.free[0] in s2.mem.Keys && s.free[0] in s2.roles.Keys;
    }
  }

  lemma PlainUses(s: State, s': State, exhausted: bool)
    requires PlainKept(s, s')
    ensures NewUses(s, s', exhausted)
  {
    assert s'.roles.Keys == s.roles.Keys;
  }

  lemma FailedGrantKeepsInv(s: State, s': State, spaces: seq<Space>, trapSec: nat, lost: bool, lost': bool, pid: nat)
    requires Inv(s, spaces, trapSec, lost) && (lost ==> lost') && Orderly(s', |spaces|, trapSec)
    requires Evolves(s, s', pid, {}) && SameLeaves(s, s') && NewUses(s, s', lost')
    ensures Inv(s', spaces, trapSec, lost')
  {
    hide LeafWord, Valid, Orderly, Evolves, FrameOf, SpaceOk, OwnerOk, CodeOk;
    forall p: nat, v: nat | p < |spaces| && IsCodeLeaf(s', p, v) ensures Valid(LeafWord(s, UserTree(p), v)) {
      assert LeafWord(s', UserTree(p), v) == LeafWord(s, UserTree(p), v);
    }
    InvEvolves(s, s', spaces, trapSec, lost, lost', pid);
  }

  lemma LostPageKeepsInv(s0: State, s1: State, s2: State, s3: State, spaces: seq<Space>, trapSec: nat, lost: bool,
                         pid: nat, f: nat)
    requires Inv(s0, spaces, trapSec, lost) && Took(s0, s1, f) && pid < |spaces|
    requires Evolves(s1, s2, pid, {}) && SameLeaves(s1, s2) && PlainKept(s1, s2) && Orderly(s2, |spaces|, trapSec)
    requires s3 == s2.(roles := s2.roles[f := Lost])
    ensures Well(s3) && Inv(s3, spaces, trapSec, true) && Evolves(s0, s3, pid, {}) && SameLeaves(s0, s3)
  {
    hide Inv, LeafWord, Valid, LeavesOwned, TreesOwned, TreesOk, FreeOk, Evolves, SameLeaves;
    KeysKept(s1, s2);
    assert s2.roles[f].Taken? && f in s2.mem;
    assert s3 == Fill(s2, f, s2.mem[f], Lost);
    FillEvolves(s2, f, s2.mem[f], Lost, pid);
    FillIsOrderly(s2, |spaces|, trapSec, f, s2.mem[f], Lost);
    TookEvolves(s0, s1, f, pid);
    EvolvesTrans(s0, s1, s2, pid, {}, {});
    EvolvesTrans(s0, s2, s3, pid, {} + {}, {f});
    EvolvesFresh(s0, s3, pid, {} + {} + {f});
    SameLeavesTrans(s0, s1, s2);
    SameLeavesTrans(s0, s2, s3);
    assert NewUses(s0, s3, true);
    FailedGrantKeepsInv(s0, s3, spaces, trapSec, lost, true, pid);
  }

  const READ_WRITE: nat := PROT_WRITE + PROT_READ

  function UserReadWrite(pa: nat): nat { LeafEntry(pa, ProtToType(READ_WRITE, true)) }

  /** The list after one page is asked of it. */
  function Rest(free: seq<nat>): seq<nat> { if free == [] then [] else free[1..] }

  /** A page can be taken and mapped at v: the place is vacant, and the list then covers the missing tables. */
  ghost predicate CanGrant(s: State, t: Tree, v: nat) {
    Vacant(s, t, v, 1) && |Missing(s, t, v, 1)| <= |Rest(s.free)|
  }

  lemma GrantCondition(s: State, s1: State, t: Tree, v: nat)
    requires s1.nodes == s.nodes && Mapped(s1, t, v) == Mapped(s, t, v) && s1.free == Rest(s.free)
    ensures Vacant(s1, t, v, 1) <==> Vacant(s, t, v, 1)
    ensures CanMap(s1, t, v, 1) <==> CanGrant(s, t, v)
  {
    hide Mapped;
    OnePageVacant(s, t, v);
    OnePageVacant(s1, t, v);
  }

  /** Take a page and map it for a process; a page that cannot be mapped for want of tables is lost. */
  method GrantPrivate(mc: Machine, root: nat, va: nat, size: nat,
                      ghost spaces: seq<Space>, ghost trapSec: nat, ghost exhausted: bool, ghost pid: nat)
      returns (r: Outcome, pa: nat)
    requires mc.Valid() && Inv(mc.S(), spaces, trapSec, exhausted)
    requires pid < |spaces| && root == spaces[pid].root * PAGE_SIZE
    requires va < WORD_LIMIT && size < WORD_LIMIT && PageCount(va, size) == 1
    modifies mc
    ensures mc.Valid() && mc.startAddr == old(mc.startAddr) && mc.endAddr == old(mc.endAddr)
    ensures pa == Link(old(mc.free), 0) && (pa == 0 <==> old(mc.free) == [])
    ensures r.Done? <==> CanGrant(old(mc.S()), UserTree(pid), va / PAGE_SIZE)
    ensures r.Halted? <==> !Vacant(old(mc.S()), UserTree(pid), va / PAGE_SIZE, 1)
    ensures r.Done? ==>
      && va < MAXVA && Inv(mc.S(), spaces, trapSec, exhausted) && Evolves(old(mc.S()), mc.S(), pid, {})
      && !Mapped(old(mc.S()), UserTree(pid), va / PAGE_SIZE)
      && LeafChanged(old(mc.S()), mc.S(), UserTree(pid), va / PAGE_SIZE, UserReadWrite(pa))
      && Handed(old(mc.S()), mc.S(), pid, va / PAGE_SIZE)
    ensures r.Failed? ==>
      && mc.free == [] && Inv(mc.S(), spaces, trapSec, exhausted || pa != 0)
      && Evolves(old(mc.S()), mc.S(), pid, {}) && SameLeaves(old(mc.S()), mc.S())
  {
    hide Well, Inv, Orderly, Evolves, LeafChanged, LeafEntry, ProtToType, LeafWord, Took, Granted, Mapped, MayLead,
      SameLeaves, PlainKept, CanGrant, CanMap, Vacant, TablesAdded, PathOf, Handed;
    ghost var s0, n, v := mc.S(), |spaces|, va / PAGE_SIZE;
    InvGives(s0, spaces, trapSec, exhausted, pid);
    pa := TakePage(mc, n, trapSec);
    ghost var s1, f := mc.S(), pa / PAGE_SIZE;
    TakenMayLead(s0, s1, trapSec, pid, v, f);
    SameNodes(s0, s1, f, UserTree(pid), v);
    GrantCondition(s0, s1, UserTree(pid), v);
    r := MapOwned(mc, root, va, size, pa, READ_WRITE, true, n, trapSec, pid, Private(pid, v));
    ghost var s2 := mc.S();
    if r.Done? {
      EncodedLeaf(pa, READ_WRITE, true);
      PrivateGrantKeepsInv(s0, s1, s2, spaces, trapSec, exhausted, pid, v, f, UserReadWrite(pa));
      GrantIsHanded(s0, s1, s2, pid, v, UserReadWrite(pa));
    } else {
      if pa != 0 {
        mc.roles := mc.roles[f := Lost];
        LostPageKeepsInv(s0, s1, s2, mc.S(), spaces, trapSec, exhausted, pid, f);
      } else {
        PlainUses(s0, s2, exhausted);
        FailedGrantKeepsInv(s0, s2, spaces, trapSec, exhausted, exhausted, pid);
      }
    }
  }
}
