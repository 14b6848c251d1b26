/**
 Inputs on which the code does less than its comments or its callers may expect
 (kernel/vmm.c, kernel/process.c, kernel/elf.c): one lemma for each.
 */
module Failures {
  import opened Words
  import opened Sv39
  import opened Layout
  import opened Vmm
  import opened Hardware
  import opened Ownership
  import opened Spaces
  import opened Release
  import opened Shape
  import opened Birth
  import opened Fork
  import opened ForkMeaning
  import opened Kernel
  import opened Steps
  import opened UserMemory
  import opened Load

  // ---- user_va_to_pa on an unmapped address ----

  /** The page below the stack. */
  const BELOW_STACK: nat := (STACK_VPN - 1) * PAGE_SIZE

  /** In a new process the page below the stack is unmapped, and user_va_to_pa answers the bare offset, not null. */
  lemma BelowTheStack(s: State, n: nat, tf: nat, us: nat, trapSec: nat, offset: nat)
    requires Well(s) && Root(UserTree(n)) in s.nodes && NewLeaves(s, n, tf, us, trapSec) && us < PPN_LIMIT
    requires STACK_VPN !in {tf, trapSec} && STACK_VPN - 1 !in {tf, trapSec} && 0 < offset < PAGE_SIZE
    ensures !Mapped(s, UserTree(n), STACK_VPN - 1)
    ensures UserVaToPa(s.mem, s.nodes[Root(UserTree(n))], BELOW_STACK + offset) == Address(offset) != Address(0)
  {
    hide Well, LeafEntry, ProtToType, Descend, WalkFrom;
    var t, va := UserTree(n), BELOW_STACK + offset;
    assert va / PAGE_SIZE == STACK_VPN - 1 && va % PAGE_SIZE == offset;
    assert (STACK_VPN - 1) / ENTRIES == STACK_VPN / ENTRIES;
    assert LeafWord(s, t, STACK_VPN) == NewLeaf(tf, us, trapSec, STACK_VPN);
    assert LeafWord(s, t, STACK_VPN - 1) == NewLeaf(tf, us, trapSec, STACK_VPN - 1) == 0;
    AddressOfFrame(us);
    EncodedLeaf(us * PAGE_SIZE, READ_WRITE, true);
    WalksReachLeaf(s, t, va, Hardware.Load, true);
  }

  // ---- naive_free of pages that may not be freed ----

  /** A process that frees the address of its own trapframe is not stopped, and the invariant is gone. */
  lemma OwnTrapframeFreed(s: State, spaces: seq<Space>, trapSec: nat, exhausted: bool, pid: nat, start: nat, end: nat)
    requires Inv(s, spaces, trapSec, exhausted) && pid < |spaces| && TrapSection(s, trapSec)
    requires start <= spaces[pid].trapframe * PAGE_SIZE < end
    ensures var tf := spaces[pid].trapframe;
      && !FreeHalts(s, pid, tf * PAGE_SIZE, start, end) && !CanFree(s, spaces[pid], pid, tf)
      && Accepted(s, UserTree(pid), tf) && !Inv(Unmapped(s, UserTree(pid), tf), spaces, trapSec, exhausted)
  {
    hide TreesOk, FreeOk, LeavesOwned, TreesOwned, CodeOk, OwnerOk, LeafWord, FrameOf, Unmapped, Sv39.Valid, UserPage,
      Readable, Writable, Executable;
    var tf := spaces[pid].trapframe;
    assert SpaceOk(s, spaces, pid);
    AddressOfFrame(tf);
    MappedHasTable(s, pid, tf);
    CodeBelow(s, trapSec, |spaces|, pid, tf);
    assert tf in s.mem.Keys && s.roles.Keys == s.mem.Keys;
    ReleaseKeepsInvIff(s, spaces, trapSec, exhausted, pid, tf);
  }

  /** The call is carried out: there is an entry, and it names a frame in memory. */
  ghost predicate Accepted(s: State, t: Tree, v: nat) {
    && NodeId(t, 0, v / ENTRIES) in s.nodes && (forall f :: f in s.mem ==> |s.mem[f]| == ENTRIES)
    && s.nodes[NodeId(t, 0, v / ENTRIES)] in s.mem && FrameOf(LeafWord(s, t, v)) in s.mem
  }

  lemma MappedHasTable(s: State, pid: nat, v: nat)
    requires Well(s) && Sv39.Valid(LeafWord(s, UserTree(pid), v))
    ensures NodeId(UserTree(pid), 0, v / ENTRIES) in s.nodes && s.nodes[NodeId(UserTree(pid), 0, v / ENTRIES)] in s.mem
  {
    ZeroIsInvalid();
  }

  /** A page freed lawfully can be freed again: the call is accepted, and the invariant is gone. */
  lemma FreedTwice(s: State, spaces: seq<Space>, trapSec: nat, exhausted: bool, pid: nat, va: nat, start: nat, end: nat)
    requires Inv(s, spaces, trapSec, exhausted) && pid < |spaces| && trapSec * PAGE_SIZE < start
    requires !FreeHalts(s, pid, va, start, end) && Accepted(s, UserTree(pid), va / PAGE_SIZE)
    requires CanFree(s, spaces[pid], pid, va / PAGE_SIZE)
    ensures var v := va / PAGE_SIZE; var s' := Unmapped(s, UserTree(pid), v);
      && Inv(s', spaces, trapSec, exhausted) && !FreeHalts(s', pid, va, start, end) && !CanFree(s', spaces[pid], pid, v)
      && Accepted(s', UserTree(pid), v) && !Inv(Unmapped(s', UserTree(pid), v), spaces, trapSec, exhausted)
  {
    hide Inv, LeafWord, FrameOf, Unmapped, Sv39.Valid, CodePages, TreesOk, FreeOk;
    var v := va / PAGE_SIZE;
    var w, s' := LeafWord(s, UserTree(pid), v), Unmapped(s, UserTree(pid), v);
    ReleasedOnce(s, spaces, trapSec, exhausted, pid, v);
    ReleaseKeepsInvIff(s, spaces, trapSec, exhausted, pid, v);
    StillAccepted(s, s', UserTree(pid), v);
    ReleaseKeepsInvIff(s', spaces, trapSec, exhausted, pid, v);
  }

  lemma ReleasedOnce(s: State, spaces: seq<Space>, trapSec: nat, exhausted: bool, pid: nat, v: nat)
    requires Inv(s, spaces, trapSec, exhausted) && pid < |spaces| && FrameOf(LeafWord(s, UserTree(pid), v)) != trapSec
    requires Accepted(s, UserTree(pid), v) && CanFree(s, spaces[pid], pid, v)
    ensures Releasable(s, spaces, trapSec, exhausted, pid, v)
    ensures var w, s' := LeafWord(s, UserTree(pid), v), Unmapped(s, UserTree(pid), v);
      && LeafWord(s', UserTree(pid), v) == w - 1 && !Sv39.Valid(w - 1) && FrameOf(w - 1) == FrameOf(w)
      && s'.nodes == s.nodes && s'.mem.Keys == s.mem.Keys && s'.roles.Keys == s.roles.Keys && FrameOf(w) != trapSec
      && s.roles.Keys == s.mem.Keys && (forall f :: f in s'.mem ==> |s'.mem[f]| == ENTRIES)
  {
    hide TreesOk, FreeOk, SpaceOk, CodePages, LeavesOwned, TreesOwned;
    var w := LeafWord(s, UserTree(pid), v);
    assert s.roles.Keys == s.mem.Keys && FrameOf(w) in s.roles.Keys;
    FreeableIsPrivate(s, spaces, trapSec, exhausted, pid, v);
    UnmapPlain(s, UserTree(pid), v);
    ValidBitIsNotFrame(w - 1);
  }

  lemma StillAccepted(s: State, s': State, t: Tree, v: nat)
    requires Accepted(s, t, v) && s'.nodes == s.nodes && s'.mem.Keys == s.mem.Keys
    requires FrameOf(LeafWord(s', t, v)) == FrameOf(LeafWord(s, t, v))
    requires forall f :: f in s'.mem ==> |s'.mem[f]| == ENTRIES
    ensures Accepted(s', t, v)
  {
    hide LeafWord, FrameOf;
    var low := NodeId(t, 0, v / ENTRIES);
    assert s'.nodes[low] in s'.mem.Keys && FrameOf(LeafWord(s', t, v)) in s'.mem.Keys;
  }

  // ---- fork ----

  /** A data region of one page at 4 GB. */
  const HIGH_DATA: Region := Region(0x1_0000_0000, 1, DataSegment)

  lemma HighDataGoesToZero()
    ensures DataVa(HIGH_DATA, 0) == 0 && HIGH_DATA.va / PAGE_SIZE == 0x10_0000
    ensures forall v: nat :: Gives(HIGH_DATA, v) <==> v == 0
  {
    assert DataVa(HIGH_DATA, 0) == 0;
  }

  /**
   A program with such a region, and with page 0 mapped by an earlier store fault, can fork;
   the child has a copy of page 0 and nothing at the address of the region.  Without page 0
   the fork panics.
   */
  lemma HighDataIsMissed(s0: State, s: State, parent: nat, child: nat, trapSec: nat, tf: nat)
    requires trapSec != 0x10_0000 && (s0.free != [] ==> s0.free[0] != 0x10_0000)
    ensures ForkFits(s0, parent, child, trapSec, NewRegions(tf, trapSec) + [HIGH_DATA]) ==> Found(s0, parent, 0)
    ensures Grew(s0, s, parent, child, trapSec, NewRegions(tf, trapSec) + [HIGH_DATA]) ==>
      && Mapped(s0, UserTree(parent), 0) && Mapped(s, UserTree(child), 0) && !Mapped(s, UserTree(child), 0x10_0000)
  {
    hide Fits, Shaped, ChildPages, ChildFrames, LeafWord, FrameOf, Sv39.Valid, DataVa, Gives;
    var regions := NewRegions(tf, trapSec) + [HIGH_DATA];
    HighDataGoesToZero();
    FirstGive(tf, trapSec, 0x10_0000);
    assert regions[3] == HIGH_DATA;
    if ForkFits(s0, parent, child, trapSec, regions) {
      assert SourceFound(s0, parent, regions[3]);
      assert DataVa(HIGH_DATA, 0) / PAGE_SIZE == 0;
    }
    if Grew(s0, s, parent, child, trapSec, regions) {
      GrewFits(s0, s, parent, child, trapSec, regions);
      ChildMapsExactly(s0, s, parent, child, trapSec, regions, 0);
      ChildMapsExactly(s0, s, parent, child, trapSec, regions, 0x10_0000);
      assert Gives(regions[3], 0);
      OnlyThese(tf, trapSec, 0x10_0000);
    }
  }

  lemma FirstGive(tf: nat, trapSec: nat, v: nat)
    requires v != STACK_VPN
    ensures forall k :: 0 <= k < 3 ==> !Gives(NewRegions(tf, trapSec)[k], v)
  {
  }

  lemma OnlyThese(tf: nat, trapSec: nat, v: nat)
    requires v != STACK_VPN && !Gives(HIGH_DATA, v)
    ensures !GivenBy(NewRegions(tf, trapSec) + [HIGH_DATA], v)
  {
    hide Gives;
    FirstGive(tf, trapSec, v);
    var regions := NewRegions(tf, trapSec) + [HIGH_DATA];
    forall k | 0 <= k < |regions| ensures !Gives(regions[k], v) {
      if k < 3 { assert regions[k] == NewRegions(tf, trapSec)[k]; }
    }
  }

  /** Data regions are not recorded in the child, so a grandchild has none of their pages. */
  lemma GrandchildLosesData(s0: State, s: State, child: nat, grandchild: nat, trapSec: nat, tf: nat,
                            regions: seq<Region>, v: nat)
    requires Grew(s0, s, child, grandchild, trapSec, NewRegions(tf, trapSec) + CodeRegions(regions))
    requires v !in FirstPages(s0.free, trapSec) && v !in CodePages(regions)
    ensures !Mapped(s, UserTree(grandchild), v)
  {
    hide Grew, FirstPages, Mapped, Gives, CodePages;
    var all := NewRegions(tf, trapSec) + CodeRegions(regions);
    ChildMapsExactly(s0, s, child, grandchild, trapSec, all, v);
    StackIsFirst(s0.free, trapSec, NewRegions(tf, trapSec)[0], v);
    StackGiven(tf, trapSec, v);
    forall k | 0 <= k < |all| ensures !Gives(all[k], v) {
      if k < 3 {
        assert all[k] == NewRegions(tf, trapSec)[k];
        if v != STACK_VPN { FirstGive(tf, trapSec, v); }
      } else {
        CodeGives(regions, k - 3, v);
      }
    }
  }

  lemma StackGiven(tf: nat, trapSec: nat, v: nat)
    ensures Gives(NewRegions(tf, trapSec)[0], v) <==> v == STACK_VPN
  {
  }

  lemma {:induction false} CodeGives(regions: seq<Region>, k: nat, v: nat)
    requires k < |CodeRegions(regions)| && v !in CodePages(regions)
    ensures !Gives(CodeRegions(regions)[k], v)
    decreases |regions|
  {
    var init, last := regions[..|regions| - 1], regions[|regions| - 1];
    assert regions == init + [last];
    CodePagesNext(init, last);
    if k < |CodeRegions(init)| { CodeGives(init, k, v); }
  }

  // ---- segments that do not start a page ----

  /** The loader maps one page for a segment exactly when the segment starts a page, and two otherwise. */
  lemma SegmentPageCount(va: nat)
    requires va + PAGE_SIZE <= WORD_LIMIT
    ensures PageCount(va, PAGE_SIZE) == if va % PAGE_SIZE == 0 then 1 else 2
  {
  }

  /**
   Then the second page leads to the frame behind the one taken.  If that frame is in memory,
   whatever it is used for, no account of the other frames' uses keeps the invariant.
   */
  lemma UnalignedSegment(s: State, s': State, spaces: seq<Space>, trapSec: nat, exhausted: bool, va: nat, f: nat,
                         added: set<NodeId>, roles: map<nat, Role>)
    requires Orderly(s, |spaces|, trapSec) && spaces != [] && va % PAGE_SIZE != 0 && va + PAGE_SIZE <= WORD_LIMIT
    requires !Mapped(s, UserTree(0), va / PAGE_SIZE + 1)
    requires RangeMapped(s, s', UserTree(0), va / PAGE_SIZE, PageCount(va, PAGE_SIZE), f * PAGE_SIZE,
                         ProtToType(READ_WRITE_EXEC, true), added)
    requires f + 1 in s.roles && f + 1 in roles && roles[f + 1] == s.roles[f + 1]
    ensures Leads(s', 0, va / PAGE_SIZE + 1, f + 1) && !Inv(s'.(roles := roles), spaces, trapSec, exhausted)
  {
    hide TreesOk, FreeOk, LeafWord, LeafEntry, ProtToType, FrameOf, Sv39.Valid, Sound, SpaceOk, OwnerOk, CodeOk,
      PlainKept, TablesAdded, TreesOwned, PageCount;
    SegmentPageCount(va);
    var v, pa, s2 := va / PAGE_SIZE, (f + 1) * PAGE_SIZE, s'.(roles := roles);
    assert f + 1 in s.mem.Keys && Wrap(f * PAGE_SIZE + PAGE_SIZE * 1) == pa && pa / PAGE_SIZE == f + 1;
    EncodedLeaf(pa, READ_WRITE_EXEC, true);
    assert LeafWord(s', UserTree(0), v + 1) == LeafEntry(pa, ProtToType(READ_WRITE_EXEC, true));
    assert LeafWord(s2, UserTree(0), v + 1) == LeafWord(s', UserTree(0), v + 1) by { SameTables(s', s2, v + 1); }
    assert RoleOk(s, |spaces|, f + 1);
    assert !LeafOk(s2, trapSec, 0, v + 1);
  }

  lemma SameTables(s: State, s': State, v: nat)
    requires s'.mem == s.mem && s'.nodes == s.nodes
    ensures LeafWord(s', UserTree(0), v) == LeafWord(s, UserTree(0), v)
  {
  }
}
