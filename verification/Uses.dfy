/**
 What the invariant of the process memories says about each page of the pool, in terms of
 the kernel's own data: lists, tables, records and leaves.
 */
module Uses {
  import opened Sv39
  import opened Layout
  import opened Pmm
  import opened Ownership
  import opened Spaces
  import opened UserMemory
  import opened Kernel
  import opened Hardware

  ghost predicate IsTable(s: State, f: nat) {
    exists id :: id in s.nodes && s.nodes[id] == f
  }

  ghost predicate IsTrapframe(spaces: seq<Space>, f: nat) {
    exists p: nat :: p < |spaces| && spaces[p].trapframe == f
  }

  ghost predicate IsKernelStack(spaces: seq<Space>, f: nat) {
    exists p: nat :: p < |spaces| && spaces[p].kernelStack == f
  }

  ghost predicate IsRegionTable(spaces: seq<Space>, f: nat) {
    exists p: nat :: p < |spaces| && spaces[p].regionTable == f
  }

  /** Mapped by a process at an address that is not recorded as code; a process maps its own trapframe, too. */
  ghost predicate IsPrivate(s: State, spaces: seq<Space>, f: nat) {
    exists p: nat, v: nat ::
      p < |spaces| && Leads(s, p, v, f) && v !in CodePages(spaces[p].regions) && f != spaces[p].trapframe
  }

  ghost predicate IsCode(s: State, spaces: seq<Space>, f: nat) {
    exists p: nat, v: nat :: p < |spaces| && Leads(s, p, v, f) && v in CodePages(spaces[p].regions)
  }

  ghost function UsesOf(s: State, spaces: seq<Space>, f: nat): seq<bool> {
    [f in s.free, IsTable(s, f), IsTrapframe(spaces, f), IsKernelStack(spaces, f), IsRegionTable(spaces, f),
     IsPrivate(s, spaces, f), IsCode(s, spaces, f)]
  }

  ghost predicate ExactlyOne(b: seq<bool>) {
    exists i: nat :: IsOnly(b, i)
  }

  ghost predicate IsOnly(b: seq<bool>, i: nat) {
    i < |b| && forall j :: 0 <= j < |b| ==> b[j] == (j == i)
  }

  lemma TableUse(s: State, f: nat)
    requires Well(s) && f in s.roles
    ensures (f in s.free <==> s.roles[f].Free?) && (IsTable(s, f) <==> s.roles[f].Table?)
  {
    if s.roles[f].Table? { assert s.roles[f].id in s.nodes; }
    if id :| id in s.nodes && s.nodes[id] == f { assert IdOk(s, id); }
  }

  lemma RecordUse(s: State, spaces: seq<Space>, trapSec: nat, exhausted: bool, f: nat)
    requires Inv(s, spaces, trapSec, exhausted) && f in s.roles
    ensures IsTrapframe(spaces, f) <==> s.roles[f].Trapframe?
    ensures IsKernelStack(spaces, f) <==> s.roles[f].KernelStack?
    ensures IsRegionTable(spaces, f) <==> s.roles[f].RegionTable?
  {
    hide Orderly, CodeOk, RegionsOk;
    assert OwnerOk(s, spaces, exhausted, f);
    forall p: nat | p < |spaces|
      ensures (spaces[p].trapframe == f ==> s.roles[f] == Trapframe(p))
      ensures (spaces[p].kernelStack == f ==> s.roles[f] == KernelStack(p))
      ensures spaces[p].regionTable == f ==> s.roles[f] == RegionTable(p)
    {
      assert SpaceOk(s, spaces, p);
    }
  }

  /** A leaf of a process leads to a private page, a code page or its trapframe, as the records say. */
  lemma LeafUse(s: State, spaces: seq<Space>, trapSec: nat, exhausted: bool, p: nat, v: nat, f: nat)
    requires Inv(s, spaces, trapSec, exhausted) && f in s.roles && p < |spaces| && Leads(s, p, v, f)
    requires !s.roles[f].Image?
    ensures v in CodePages(spaces[p].regions) <==> s.roles[f].Code?
    ensures f == spaces[p].trapframe <==> s.roles[f].Trapframe?
    ensures v !in CodePages(spaces[p].regions) && f != spaces[p].trapframe ==> s.roles[f] == Private(p, v)
  {
    hide Well, LeafWord, FrameOf, Sv39.Valid, CodePages, RegionsOk;
    assert LeafOk(s, trapSec, p, v) && CodeOk(s, spaces, p, v) && SpaceOk(s, spaces, p);
    assert OwnerOk(s, spaces, exhausted, f);
  }

  lemma MappedUse(s: State, spaces: seq<Space>, trapSec: nat, exhausted: bool, f: nat)
    requires Inv(s, spaces, trapSec, exhausted) && f in s.roles && !s.roles[f].Image?
    ensures IsPrivate(s, spaces, f) <==> s.roles[f].Private?
    ensures IsCode(s, spaces, f) <==> s.roles[f].Code?
  {
    hide Leads, CodePages, Inv;
    forall p: nat, v: nat | p < |spaces| && Leads(s, p, v, f)
      ensures v in CodePages(spaces[p].regions) <==> s.roles[f].Code?
      ensures v !in CodePages(spaces[p].regions) && f != spaces[p].trapframe ==> s.roles[f].Private?
      ensures f == spaces[p].trapframe <==> s.roles[f].Trapframe?
    {
      LeafUse(s, spaces, trapSec, exhausted, p, v, f);
    }
    Target(s, spaces, trapSec, exhausted, f);
  }

  lemma Target(s: State, spaces: seq<Space>, trapSec: nat, exhausted: bool, f: nat)
    requires Inv(s, spaces, trapSec, exhausted) && f in s.roles
    ensures s.roles[f].Private? ==> s.roles[f].pid < |spaces| && Leads(s, s.roles[f].pid, s.roles[f].vpn, f)
    ensures s.roles[f].Code? ==> 0 < |spaces| && Leads(s, 0, s.roles[f].vpn, f)
  {
    hide Well, Leads, SpaceOk, OwnerOk, CodeOk;
    assert RoleOk(s, |spaces|, f);
  }

  /** While the pool is not exhausted, every page of it has exactly one use. */
  lemma EveryPageHasOneUse(s: State, spaces: seq<Space>, trapSec: nat, start: nat, end: nat, f: nat)
    requires Inv(s, spaces, trapSec, false) && PoolInUse(s, start, end) && InPool(start, end, f)
    ensures ExactlyOne(UsesOf(s, spaces, f))
  {
    hide Orderly, SpaceOk, CodeOk, IsTable, IsTrapframe, IsKernelStack, IsRegionTable, IsPrivate, IsCode, ExactlyOne,
      InPool;
    WellFromInv(s, spaces, trapSec);
    TableUse(s, f);
    RecordUse(s, spaces, trapSec, false, f);
    MappedUse(s, spaces, trapSec, false, f);
    assert OwnerOk(s, spaces, false, f);
    OneOfRole(s.roles[f], UsesOf(s, spaces, f));
  }

  lemma OneOfRole(role: Role, u: seq<bool>)
    requires |u| == 7 && !role.Image? && !role.Taken? && !role.Lost?
    requires u[0] == role.Free? && u[1] == role.Table? && u[2] == role.Trapframe? && u[3] == role.KernelStack?
    requires u[4] == role.RegionTable? && u[5] == role.Private? && u[6] == role.Code?
    ensures ExactlyOne(u)
  {
    match role
    case Free => assert IsOnly(u, 0);
    case Table(_) => assert IsOnly(u, 1);
    case Trapframe(_) => assert IsOnly(u, 2);
    case KernelStack(_) => assert IsOnly(u, 3);
    case RegionTable(_) => assert IsOnly(u, 4);
    case Private(_, _) => assert IsOnly(u, 5);
    case Code(_) => assert IsOnly(u, 6);
  }

  lemma WellFromInv(s: State, spaces: seq<Space>, trapSec: nat)
    requires Inv(s, spaces, trapSec, false)
    ensures Well(s)
  {
    hide Well;
  }

  /** A private page is mapped by one process at one address only. */
  lemma PrivateOnce(s: State, spaces: seq<Space>, trapSec: nat, exhausted: bool, f: nat, p: nat, v: nat, q: nat, u: nat)
    requires Inv(s, spaces, trapSec, exhausted) && f in s.roles && s.roles[f].Private?
    requires p < |spaces| && q < |spaces| && Leads(s, p, v, f) && Leads(s, q, u, f)
    ensures p == q && v == u
  {
    hide Well, LeafWord, FrameOf, Sv39.Valid, Sound;
    assert LeafOk(s, trapSec, p, v) && LeafOk(s, trapSec, q, u);
  }

  /** A code page is mapped at one address only, and by every ancestor of a process that maps it. */
  lemma {:induction false} CodeSharedByAncestors(s: State, spaces: seq<Space>, trapSec: nat, exhausted: bool, f: nat,
                                                 p: nat, v: nat)
    requires Inv(s, spaces, trapSec, exhausted) && f in s.roles && s.roles[f].Code? && p < |spaces| && Leads(s, p, v, f)
    ensures s.roles[f].vpn == v && forall q: nat :: IsAncestor(spaces, q, p) ==> q < |spaces| && Leads(s, q, v, f)
    decreases p
  {
    hide Well, LeafWord, FrameOf, Sv39.Valid, Sound, CodePages, RegionsOk;
    assert LeafOk(s, trapSec, p, v) && CodeOk(s, spaces, p, v) && SpaceOk(s, spaces, p);
    if p > 0 {
      CodeSharedByAncestors(s, spaces, trapSec, exhausted, f, spaces[p].parent, v);
    }
  }

  ghost predicate IsAncestor(spaces: seq<Space>, q: nat, p: nat)
    decreases p
  {
    q == p || (0 < p < |spaces| && spaces[p].parent < p && IsAncestor(spaces, q, spaces[p].parent))
  }
}
