/**
 Giving a page back (kernel/syscall.c, kernel/vmm.c): exactly which releases the ownership
 invariant survives.
 */
module Release {
  import opened Sv39
  import opened Layout
  import opened Vmm
  import opened Hardware
  import opened Ownership
  import opened Spaces

  /** A page may be given back when it is mapped, is not the trapframe and is not recorded as code. */
  ghost predicate CanFree(s: State, space: Space, pid: nat, v: nat) {
    && Mapped(s, UserTree(pid), v)
    && FrameOf(LeafWord(s, UserTree(pid), v)) != space.trapframe
    && v !in CodePages(space.regions)
  }

  /** The situation of a call that does not halt: there is an entry, and it names a frame of the machine. */
  ghost predicate Releasable(s: State, spaces: seq<Space>, trapSec: nat, exhausted: bool, pid: nat, v: nat) {
    && Inv(s, spaces, trapSec, exhausted) && pid < |spaces|
    && NodeId(UserTree(pid), 0, v / ENTRIES) in s.nodes
    && FrameOf(LeafWord(s, UserTree(pid), v)) in s.roles
    && FrameOf(LeafWord(s, UserTree(pid), v)) != trapSec
  }

  /** What a mapped page that may be released leads to. */
  lemma FreeableIsPrivate(s: State, spaces: seq<Space>, trapSec: nat, exhausted: bool, pid: nat, v: nat)
    requires Releasable(s, spaces, trapSec, exhausted, pid, v) && Mapped(s, UserTree(pid), v)
    ensures var f := FrameOf(LeafWord(s, UserTree(pid), v));
      && (CanFree(s, spaces[pid], pid, v) <==> s.roles[f] == Private(pid, v))
      && (s.roles[f] == Private(pid, v) || s.roles[f] == Code(v) || s.roles[f] == Trapframe(pid))
      && (s.roles[f].Code? ==> v in CodePages(spaces[pid].regions))
      && (s.roles[f].Trapframe? ==> spaces[pid].trapframe == f)
  {
    hide Well, LeafWord, FrameOf, CodePages, Sound;
    var f := FrameOf(LeafWord(s, UserTree(pid), v));
    assert LeafOk(s, trapSec, pid, v);
    assert OwnerOk(s, spaces, exhausted, f);
    assert CodeOk(s, spaces, pid, v);
    assert SpaceOk(s, spaces, pid);
  }

  lemma ReleaseKeepsLeaves(s: State, s': State, n: nat, trapSec: nat, pid: nat, v: nat, f: nat, w: nat)
    requires LeavesOwned(s, n, trapSec) && pid < n && f in s.roles && s.roles[f] == Private(pid, v)
    requires Leads(s, pid, v, f) && !Valid(w)
    requires LeafChanged(s, s', UserTree(pid), v, w) && s'.roles == s.roles[f := Free]
    ensures LeavesOwned(s', n, trapSec)
  {
    hide LeafWord, Sound, FrameOf, Valid;
    forall p: nat, u: nat | p < n ensures LeafOk(s', trapSec, p, u) {
      assert LeafOk(s, trapSec, p, u);
      assert LeafWord(s', UserTree(p), u) == if p == pid && u == v then w else LeafWord(s, UserTree(p), u);
    }
    forall g | g in s'.roles ensures RoleOk(s', n, g) {
      assert g in s.roles && RoleOk(s, n, g);
      match s'.roles[g]
      case Private(p, u) =>
        assert LeafWord(s', UserTree(p), u) == if p == pid && u == v then w else LeafWord(s, UserTree(p), u);
      case Code(u) =>
        assert LeafWord(s', UserTree(0), u) == if 0 == pid && u == v then w else LeafWord(s, UserTree(0), u);
      case _ =>
    }
  }

  lemma ReleaseKeepsCode(s: State, s': State, spaces: seq<Space>, trapSec: nat, exhausted: bool,
                         pid: nat, v: nat, f: nat, w: nat, p: nat, u: nat)
    requires Inv(s, spaces, trapSec, exhausted) && pid < |spaces| && f in s.roles && s.roles[f] == Private(pid, v)
    requires Leads(s, pid, v, f) && !Valid(w)
    requires LeafChanged(s, s', UserTree(pid), v, w) && s'.roles == s.roles[f := Free] && p < |spaces|
    ensures CodeOk(s', spaces, p, u)
  {
    hide LeafWord, Sound, FrameOf, Valid, Well, TreesOwned, LeavesOwned, CodePages, RegionsOk;
    assert CodeOk(s, spaces, p, u) && SpaceOk(s, spaces, p);
    assert LeafWord(s', UserTree(p), u) == if p == pid && u == v then w else LeafWord(s, UserTree(p), u);
    var q := spaces[p].parent;
    assert LeafWord(s', UserTree(q), u) == if q == pid && u == v then w else LeafWord(s, UserTree(q), u);
  }

  lemma GoodReleaseKeepsInv(s: State, spaces: seq<Space>, trapSec: nat, exhausted: bool, pid: nat, v: nat)
    requires Releasable(s, spaces, trapSec, exhausted, pid, v) && CanFree(s, spaces[pid], pid, v)
    requires s.nodes[NodeId(UserTree(pid), 0, v / ENTRIES)] in s.mem && FrameOf(LeafWord(s, UserTree(pid), v)) in s.mem
    requires forall f :: f in s.mem ==> |s.mem[f]| == ENTRIES
    ensures Inv(Unmapped(s, UserTree(pid), v), spaces, trapSec, exhausted)
  {
    hide TreesOk, FreeOk, LeafWord, FrameOf, Valid, Sound, CodePages, LeavesOwned, CodeOk, Unmapped;
    var w := LeafWord(s, UserTree(pid), v);
    var f, s' := FrameOf(w), Unmapped(s, UserTree(pid), v);
    FreeableIsPrivate(s, spaces, trapSec, exhausted, pid, v);
    UnmapPlain(s, UserTree(pid), v);
    ReleaseKeepsLeaves(s, s', |spaces|, trapSec, pid, v, f, w - 1);
    forall p: nat | p < |spaces| ensures SpaceOk(s', spaces, p) {
      assert SpaceOk(s, spaces, p);
    }
    forall g | g in s'.roles ensures OwnerOk(s', spaces, exhausted, g) {
      assert g in s.roles && OwnerOk(s, spaces, exhausted, g);
    }
    forall p: nat, u: nat | p < |spaces| ensures CodeOk(s', spaces, p, u) {
      ReleaseKeepsCode(s, s', spaces, trapSec, exhausted, pid, v, f, w - 1, p, u);
    }
  }

  /** Releasing a table, the trapframe, code, or a page that is not mapped breaks the invariant. */
  lemma BadReleaseBreaksInv(s: State, spaces: seq<Space>, trapSec: nat, exhausted: bool, pid: nat, v: nat)
    requires Releasable(s, spaces, trapSec, exhausted, pid, v) && !CanFree(s, spaces[pid], pid, v)
    requires s.nodes[NodeId(UserTree(pid), 0, v / ENTRIES)] in s.mem && FrameOf(LeafWord(s, UserTree(pid), v)) in s.mem
    requires forall f :: f in s.mem ==> |s.mem[f]| == ENTRIES
    ensures !Inv(Unmapped(s, UserTree(pid), v), spaces, trapSec, exhausted)
  {
    var w := LeafWord(s, UserTree(pid), v);
    var f, s' := FrameOf(w), Unmapped(s, UserTree(pid), v);
    if s.roles[f].Table? {
      FreedTable(s, s', f);
    } else if !Valid(w) {
      StaleRevived(s, pid, v);
      assert !LeafOk(s', trapSec, pid, v);
    } else {
      hide LeafWord, Valid, FrameOf, Unmapped, CodePages, TreesOk, FreeOk;
      FreeableIsPrivate(s, spaces, trapSec, exhausted, pid, v);
      UnmapPlain(s, UserTree(pid), v);
      assert !SpaceOk(s', spaces, pid) || !CodeOk(s', spaces, pid, v);
    }
  }

  lemma FreedTable(s: State, s': State, f: nat)
    requires Well(s) && f in s.roles && s.roles[f].Table?
    requires s'.nodes == s.nodes && f in s'.roles && s'.roles[f].Free?
    ensures !Well(s')
  {
    var id := s.roles[f].id;
    assert id in s.nodes && s.nodes[id] == f;
    assert !IdOk(s', id);
  }

  /** The entry of a page that is not mapped becomes valid again, and leads to a free frame. */
  lemma StaleRevived(s: State, pid: nat, v: nat)
    requires Well(s) && NodeId(UserTree(pid), 0, v / ENTRIES) in s.nodes
    requires s.nodes[NodeId(UserTree(pid), 0, v / ENTRIES)] in s.mem && FrameOf(LeafWord(s, UserTree(pid), v)) in s.mem
    requires !Valid(LeafWord(s, UserTree(pid), v)) && FrameOf(LeafWord(s, UserTree(pid), v)) in s.roles
    requires !s.roles[FrameOf(LeafWord(s, UserTree(pid), v))].Table?
    ensures var w, s' := LeafWord(s, UserTree(pid), v), Unmapped(s, UserTree(pid), v);
      && LeafWord(s', UserTree(pid), v) == w + 1 && Valid(w + 1) && FrameOf(w + 1) == FrameOf(w)
      && FrameOf(w) in s'.roles && s'.roles[FrameOf(w)].Free?
  {
    hide TreesOk, FreeOk, FrameOf;
    var w := LeafWord(s, UserTree(pid), v);
    TableRole(s, NodeId(UserTree(pid), 0, v / ENTRIES));
    SlotReads(s, UserTree(pid), v);
    ValidBitIsNotFrame(w);
  }

  lemma ValidBitIsNotFrame(w: nat)
    requires !Valid(w)
    ensures Valid(w + 1) && FrameOf(w + 1) == FrameOf(w)
  {
    assert w % 2 == 0 && (w + 1) / 1024 == w / 1024;
  }

  /** Exactly the releases of mapped pages other than trapframe and code keep the invariant. */
  lemma ReleaseKeepsInvIff(s: State, spaces: seq<Space>, trapSec: nat, exhausted: bool, pid: nat, v: nat)
    requires Releasable(s, spaces, trapSec, exhausted, pid, v)
    requires s.nodes[NodeId(UserTree(pid), 0, v / ENTRIES)] in s.mem && FrameOf(LeafWord(s, UserTree(pid), v)) in s.mem
    requires forall f :: f in s.mem ==> |s.mem[f]| == ENTRIES
    ensures Inv(Unmapped(s, UserTree(pid), v), spaces, trapSec, exhausted) <==> CanFree(s, spaces[pid], pid, v)
  {
    hide Inv, CanFree, Unmapped, LeafWord, FrameOf;
    if CanFree(s, spaces[pid], pid, v) {
      GoodReleaseKeepsInv(s, spaces, trapSec, exhausted, pid, v);
    } else {
      BadReleaseBreaksInv(s, spaces, trapSec, exhausted, pid, v);
    }
  }
}
