/**
 Who owns which frame: the address spaces of the processes, and the agreement between the
 leaves of their page tables and the use recorded for each frame.
 */
module Ownership {
  import opened Words
  import opened Sv39
  import opened Layout
  import opened Vmm
  import opened Hardware

  datatype Segment = CodeSegment | DataSegment | StackSegment | ContextSegment | SystemSegment

  datatype Region = Region(va: nat, npages: nat, segment: Segment)

  /** The frames of one process, and its table of mapped regions. */
  datatype Space = Space(
    root: nat, trapframe: nat, kernelStack: nat, regionTable: nat, regions: seq<Region>, parent: nat)

  /**
   A valid leaf is usable by the hart and leads to a page of the process itself, to a code
   page, which only the first process may write, or, for the kernel only, to its trapframe or
   the trap section at their own address.
   */
  ghost predicate LeafOk(s: State, trapSec: nat, pid: nat, v: nat) {
    var w := LeafWord(s, UserTree(pid), v);
    Valid(w) ==>
      && Sound(w)
      && (FrameOf(w) in s.roles ==>
            match s.roles[FrameOf(w)]
            case Private(p, u) => p == pid && u == v
            case Trapframe(p) => p == pid && v == FrameOf(w) && !UserPage(w)
            case Code(u) => u == v && (pid > 0 ==> !Writable(w))
            case Image => v == FrameOf(w) == trapSec && !UserPage(w)
            case _ => false)
  }

  ghost predicate Leads(s: State, pid: nat, v: nat, f: nat) {
    Valid(LeafWord(s, UserTree(pid), v)) && FrameOf(LeafWord(s, UserTree(pid), v)) == f
  }

  /** A private frame is where its owner's leaf leads; a code frame is mapped by the first process. */
  ghost predicate RoleOk(s: State, n: nat, f: nat)
    requires f in s.roles
  {
    match s.roles[f]
    case Private(p, u) => p < n && Leads(s, p, u, f)
    case Code(u) => 0 < n && Leads(s, 0, u, f)
    case _ => true
  }

  ghost predicate LeavesOwned(s: State, n: nat, trapSec: nat) {
    && (forall pid: nat, v: nat {:trigger LeafOk(s, trapSec, pid, v)} :: pid < n ==> LeafOk(s, trapSec, pid, v))
    && (forall f {:trigger RoleOk(s, n, f)} :: f in s.roles ==> RoleOk(s, n, f))
  }

  /** The user trees are those of processes 0 .. n-1. */
  ghost predicate TreesOwned(s: State, n: nat) {
    && (forall pid: nat :: pid < n ==> Root(UserTree(pid)) in s.nodes)
    && (forall id :: id in s.nodes && id.tree.UserTree? ==> id.tree.pid < n)
  }

  /** Plain frames other than f keep their use. */
  ghost predicate RolesKept(s: State, s': State, f: nat) {
    && s'.roles.Keys == s.roles.Keys
    && (forall g :: g in s.roles && g != f && s.roles[g].Plain() ==> s'.roles[g] == s.roles[g])
    && (forall g :: g in s.roles && g != f && s'.roles[g].Plain() ==> s.roles[g].Plain())
  }

  /** A fresh leaf that leads where it may keeps every process's leaves in order. */
  lemma InstallKeepsLeaves(s: State, s': State, n: nat, trapSec: nat, pid: nat, v: nat, w: nat, f: nat)
    requires LeavesOwned(s, n, trapSec) && pid < n
    requires LeafChanged(s, s', UserTree(pid), v, w) && !Valid(LeafWord(s, UserTree(pid), v))
    requires RolesKept(s, s', f)
    requires f in s.roles ==> s.roles[f].Taken? || s'.roles[f] == s.roles[f]
    requires LeafOk(s', trapSec, pid, v) && (f in s'.roles ==> RoleOk(s', n, f))
    ensures LeavesOwned(s', n, trapSec)
  {
    hide LeafWord, Sound, FrameOf, Valid, Bit;
    forall p: nat, u: nat | p < n ensures LeafOk(s', trapSec, p, u) {
      assert LeafOk(s, trapSec, p, u);
      assert LeafWord(s', UserTree(p), u) == if p == pid && u == v then w else LeafWord(s, UserTree(p), u);
    }
    forall g | g in s'.roles ensures RoleOk(s', n, g) {
      if g != f {
        assert RoleOk(s, n, g);
        match s'.roles[g]
        case Private(p, u) =>
          assert LeafWord(s', UserTree(p), u) == if p == pid && u == v then w else LeafWord(s, UserTree(p), u);
        case Code(u) =>
          assert LeafWord(s', UserTree(0), u) == if 0 == pid && u == v then w else LeafWord(s, UserTree(0), u);
        case _ =>
      }
    }
  }

  /** A use change of a frame no leaf leads to, or no change of use, keeps the leaves in order. */
  lemma RetagKeepsLeaves(s: State, s': State, n: nat, trapSec: nat, f: nat)
    requires LeavesOwned(s, n, trapSec) && SameLeaves(s, s') && RolesKept(s, s', f)
    requires f in s.roles ==>
      || s'.roles[f] == s.roles[f]
      || ((s.roles[f].Taken? || s.roles[f].Free?) && !s'.roles[f].Private? && !s'.roles[f].Code?)
    ensures LeavesOwned(s', n, trapSec)
  {
    hide LeafWord, Sound, FrameOf, Valid, Bit;
    forall p: nat, u: nat | p < n ensures LeafOk(s', trapSec, p, u) {
      assert LeafOk(s, trapSec, p, u);
      assert LeafWord(s', UserTree(p), u) == LeafWord(s, UserTree(p), u);
    }
    forall g | g in s'.roles ensures RoleOk(s', n, g) {
      assert RoleOk(s, n, g);
      match s'.roles[g]
      case Private(p, u) => assert LeafWord(s', UserTree(p), u) == LeafWord(s, UserTree(p), u);
      case Code(u) => assert LeafWord(s', UserTree(0), u) == LeafWord(s, UserTree(0), u);
      case _ =>
    }
  }

  // ---- how a step on behalf of one process changes memory ----

  /** Only the tree of `pid` gains leaves, and none of its valid leaves changes. */
  ghost predicate LeavesStay(s: State, s': State, pid: nat) {
    forall t, v: nat :: t != UserTree(pid) || Valid(LeafWord(s, t, v)) ==> LeafWord(s', t, v) == LeafWord(s, t, v)
  }

  /** Frames in use keep their words and their use, except those in `changed`. */
  ghost predicate FramesStay(s: State, s': State, changed: set<nat>) {
    && s'.roles.Keys == s.roles.Keys && s'.mem.Keys == s.mem.Keys
    && (forall g :: g in s.roles && g in s.mem && g !in changed && s.roles[g].Plain() ==>
          s'.roles[g] == s.roles[g] && s'.mem[g] == s.mem[g])
    && (forall g :: g in s.roles && s'.roles[g].Free? ==> s.roles[g].Free?)
    && (forall g :: g in s.roles && s'.roles[g].Image? ==> s.roles[g].Image?)
  }

  /** Tables stay in place; new ones belong to the tree of `pid`. */
  ghost predicate NodesStay(s: State, s': State, pid: nat) {
    && (forall id :: id in s.nodes ==> id in s'.nodes && s'.nodes[id] == s.nodes[id])
    && (forall id :: id in s'.nodes ==> id in s.nodes || id.tree == UserTree(pid))
  }

  ghost predicate Evolves(s: State, s': State, pid: nat, changed: set<nat>) {
    LeavesStay(s, s', pid) && FramesStay(s, s', changed) && NodesStay(s, s', pid)
  }

  lemma EvolvesTrans(s: State, s': State, s'': State, pid: nat, a: set<nat>, b: set<nat>)
    requires Evolves(s, s', pid, a) && Evolves(s', s'', pid, b)
    ensures Evolves(s, s'', pid, a + b)
  {
    hide Valid, LeafWord;
  }

  lemma EvolvesThen(s: State, s': State, s'': State, pid: nat)
    requires Evolves(s, s', pid, {}) && Evolves(s', s'', pid, {})
    ensures Evolves(s, s'', pid, {})
  {
    hide Evolves;
    var none: set<nat> := {};
    EvolvesTrans(s, s', s'', pid, none, none);
    assert none + none == none;
  }

  /** Changes to frames that were free at the start do not show from there. */
  lemma EvolvesFresh(s: State, s': State, pid: nat, a: set<nat>)
    requires Evolves(s, s', pid, a)
    requires forall g :: g in a && g in s.roles ==> !s.roles[g].Plain()
    ensures Evolves(s, s', pid, {})
  {
    hide LeavesStay, NodesStay;
  }

  lemma TakeEvolves(s: State, pid: nat)
    requires Well(s) && s.free != []
    ensures Evolves(s, Take(s, Taken), pid, {})
    ensures s.free[0] in s.mem && s.roles[s.free[0]].Free?
    ensures RolesKept(s, Take(s, Taken), s.free[0])
  {
    hide TreesOk, LeafWord, Valid;
    assert s.free[0] in s.free;
    TakeWell(s, Taken);
  }

  lemma FillEvolves(s: State, f: nat, page: Page, role: Role, pid: nat)
    requires Well(s) && f in s.roles && s.roles[f].Plain() && |page| == ENTRIES && role.Plain()
    requires role.Image? ==> s.roles[f].Image?
    ensures Evolves(s, Fill(s, f, page, role), pid, {f})
    ensures Well(Fill(s, f, page, role)) && SameLeaves(s, Fill(s, f, page, role))
    ensures RolesKept(s, Fill(s, f, page, role), f)
  {
    hide TreesOk, FreeOk, LeafWord, Valid;
    FillWell(s, f, page, role);
  }

  /** What mapping a page for `pid`, and then recording the use of its frame, does to the state. */
  lemma InstallEvolves(s: State, s1: State, pid: nat, v: nat, pa: nat, perm: nat, added: set<NodeId>, f: nat,
                       role: Role)
    requires RangeMapped(s, s1, UserTree(pid), v, 1, pa, perm, added) && pa < WORD_LIMIT
    requires !Valid(LeafWord(s, UserTree(pid), v))
    requires s.mem.Keys == s.roles.Keys && f in s.roles && s.roles[f].Plain() && role.Plain()
    requires role.Image? ==> s.roles[f].Image?
    ensures var s2 := s1.(roles := s1.roles[f := role]);
      && LeafChanged(s, s2, UserTree(pid), v, LeafEntry(pa, perm))
      && RolesKept(s, s2, f) && Evolves(s, s2, pid, {f}) && s2.mem[f] == s.mem[f]
  {
    hide Valid, LeafWord, LeafEntry, LeavesSet, LeafChanged, PlainKept, TablesAdded;
    AddedNodesStay(s, s1, pid, added);
    var s2 := s1.(roles := s1.roles[f := role]);
    InstalledLeaf(s, s1, s2, pid, v, pa, perm);
    RetagFrames(s, s1, f, role);
    ChangedLeavesStay(s, s2, pid, v, LeafEntry(pa, perm));
  }

  lemma AddedNodesStay(s: State, s1: State, pid: nat, added: set<NodeId>)
    requires TablesAdded(s, s1, added) && forall id :: id in added ==> id.tree == UserTree(pid)
    ensures NodesStay(s, s1, pid)
  {
    forall id | id in s1.nodes ensures id in s.nodes || id.tree == UserTree(pid) {
      assert id in s1.nodes.Keys;
    }
    forall id | id in s.nodes ensures id in s1.nodes && s1.nodes[id] == s.nodes[id] {
      assert id in s1.nodes.Keys;
    }
  }

  lemma RetagFrames(s: State, s1: State, f: nat, role: Role)
    requires PlainKept(s, s1) && s.mem.Keys == s.roles.Keys && f in s.roles && s.roles[f].Plain() && role.Plain()
    requires role.Image? ==> s.roles[f].Image?
    ensures var s2 := s1.(roles := s1.roles[f := role]);
      RolesKept(s, s2, f) && FramesStay(s, s2, {f}) && s2.mem[f] == s.mem[f]
  {
    var s2 := s1.(roles := s1.roles[f := role]);
    assert s2.roles.Keys == s1.roles.Keys == s.roles.Keys;
    forall g | g in s.roles && g != f
      ensures s.roles[g].Plain() ==> s2.roles[g] == s.roles[g]
      ensures s2.roles[g].Plain() ==> s.roles[g].Plain()
      ensures s2.roles[g].Free? ==> s.roles[g].Free?
      ensures s2.roles[g].Image? ==> s.roles[g].Image?
    {
      assert g in s.mem.Keys && g in s1.roles && s2.roles[g] == s1.roles[g];
    }
  }

  lemma ChangedLeavesStay(s: State, s2: State, pid: nat, v: nat, w: nat)
    requires LeafChanged(s, s2, UserTree(pid), v, w) && !Valid(LeafWord(s, UserTree(pid), v))
    ensures LeavesStay(s, s2, pid)
  {
    hide LeafWord, Valid;
  }

  lemma InstalledLeaf(s: State, s1: State, s2: State, pid: nat, v: nat, pa: nat, perm: nat)
    requires LeavesSet(s, s1, UserTree(pid), v, 1, pa, perm) && pa < WORD_LIMIT
    requires s2.mem == s1.mem && s2.nodes == s1.nodes
    ensures LeafChanged(s, s2, UserTree(pid), v, LeafEntry(pa, perm))
  {
    hide LeafEntry;
    forall t, u: nat
      ensures LeafWord(s2, t, u) == if t == UserTree(pid) && u == v then LeafEntry(pa, perm) else LeafWord(s, t, u)
    {
      assert LeafWord(s2, t, u) == LeafWord(s1, t, u);
    }
  }
}
