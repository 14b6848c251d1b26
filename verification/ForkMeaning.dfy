/**
 What a fork means to the two programs, in terms of the addresses the hart translates
 (kernel/process.c, kernel/vmm.c).
 */
module ForkMeaning {
  import opened Words
  import opened Sv39
  import opened Layout
  import opened Hardware
  import opened Ownership
  import opened UserMemory
  import opened Spaces
  import opened Shape
  import opened Birth
  import opened Fork

  /** The word at a physical address. */
  function WordAt(m: Memory, pa: nat): nat {
    Entry(m, pa / PAGE_SIZE, pa % PAGE_SIZE / 8)
  }

  /** For a process, the hart's answer follows from the leaf. */
  lemma ByLeaf(s: State, n: nat, trapSec: nat, p: nat, va: nat, access: Access, user: bool)
    requires Orderly(s, n, trapSec) && p < n && va < MAXVA
    ensures Root(UserTree(p)) in s.nodes
    ensures var w, root := LeafWord(s, UserTree(p), va / PAGE_SIZE), s.nodes[Root(UserTree(p))];
      && Translate(s.mem, root, va, access, user) ==
           (if Valid(w) && Permitted(w, access, user) then Address(ToAddress(w) + va % PAGE_SIZE) else Fault)
      && LookupPa(s.mem, root, va) == (if Valid(w) then ToAddress(w) else 0)
  {
    hide Well, LeafWord, Valid, ToAddress, Translate, LookupPa, UserVaToPa, Permitted;
    assert LeafOk(s, trapSec, p, va / PAGE_SIZE);
    SoundUnlessInvalid(LeafWord(s, UserTree(p), va / PAGE_SIZE));
    SoftwareAgreesWithHardware(s, UserTree(p), va, access, user);
  }

  /** A step on behalf of one process changes no translation of any other process. */
  lemma TranslationsStay(s0: State, s: State, n0: nat, n: nat, trapSec: nat, who: nat, p: nat, va: nat, access: Access,
                         user: bool)
    requires Orderly(s0, n0, trapSec) && Orderly(s, n, trapSec) && p < n0 <= n && p != who && va < MAXVA
    requires Evolves(s0, s, who, {})
    ensures Root(UserTree(p)) in s0.nodes && Root(UserTree(p)) in s.nodes
    ensures Translate(s.mem, s.nodes[Root(UserTree(p))], va, access, user) ==
            Translate(s0.mem, s0.nodes[Root(UserTree(p))], va, access, user)
  {
    hide Orderly, LeafWord, Valid, Translate, LookupPa, Permitted, FramesStay;
    ByLeaf(s0, n0, trapSec, p, va, access, user);
    ByLeaf(s, n, trapSec, p, va, access, user);
    assert LeafWord(s, UserTree(p), va / PAGE_SIZE) == LeafWord(s0, UserTree(p), va / PAGE_SIZE);
  }

  /** Page v of process p is where it was and, if in memory, has the words it had. */
  ghost predicate PageStays(s0: State, s: State, p: nat, v: nat) {
    var w := LeafWord(s0, UserTree(p), v);
    && LeafWord(s, UserTree(p), v) == w
    && (Valid(w) && FrameOf(w) in s.mem ==> FrameOf(w) in s0.mem && s0.mem[FrameOf(w)] == s.mem[FrameOf(w)])
  }

  lemma ParentPageStays(s0: State, s: State, n0: nat, trapSec: nat, parent: nat, child: nat, v: nat)
    requires Orderly(s0, n0, trapSec) && parent < n0 && parent != child && Evolves(s0, s, child, {})
    ensures PageStays(s0, s, parent, v)
  {
    hide TreesOk, FreeOk, LeafWord, Valid, FrameOf, Sound, NodesStay;
    var w := LeafWord(s0, UserTree(parent), v);
    assert LeafWord(s, UserTree(parent), v) == w;
    if Valid(w) && FrameOf(w) in s.mem {
      assert LeafOk(s0, trapSec, parent, v);
      assert FrameOf(w) in s.mem.Keys && FrameOf(w) in s0.mem.Keys;
    }
  }

  lemma AddressParts(f: nat, off: nat)
    requires off < PAGE_SIZE
    ensures (f * PAGE_SIZE + off) / PAGE_SIZE == f && (f * PAGE_SIZE + off) % PAGE_SIZE == off
  {
  }

  lemma ReadWriteGranted(f: nat)
    requires f < PPN_LIMIT
    ensures var w := UserReadWrite(f * PAGE_SIZE);
      Valid(w) && FrameOf(w) == f && Permitted(w, Load, true) && Permitted(w, Store, true) && !Permitted(w, Fetch, true)
  {
    hide LeafEntry, ProtToType, Valid, FrameOf, Readable, Writable, Executable, UserPage;
    AddressParts(f, 0);
    EncodedLeaf(f * PAGE_SIZE, READ_WRITE, true);
  }

  /**
   A copied page: the child loads the words its parent had, from a frame that was free, and
   may store to it.
   */
  lemma CopiedPageReads(s0: State, s: State, n0: nat, n: nat, trapSec: nat, parent: nat, child: nat, va: nat,
                        access: Access)
    requires Orderly(s0, n0, trapSec) && Orderly(s, n, trapSec) && PageStays(s0, s, parent, va / PAGE_SIZE)
    requires parent < n0 && child < n && parent != child && va < MAXVA && !access.Fetch?
    requires PageCopied(s0, s, parent, child, va / PAGE_SIZE)
    ensures Root(UserTree(parent)) in s0.nodes && Root(UserTree(child)) in s.nodes
    ensures var t := Translate(s.mem, s.nodes[Root(UserTree(child))], va, access, true);
      && t.Address? && t.pa / PAGE_SIZE in s0.roles && s0.roles[t.pa / PAGE_SIZE].Free?
      && WordAt(s.mem, t.pa) == WordAt(s0.mem, LookupPa(s0.mem, s0.nodes[Root(UserTree(parent))], va) + va % PAGE_SIZE)
  {
    hide Orderly, LeafWord, Valid, FrameOf, Translate, LookupPa, Permitted, UserReadWrite;
    var v := va / PAGE_SIZE;
    var wc, wp := LeafWord(s, UserTree(child), v), LeafWord(s0, UserTree(parent), v);
    ByLeaf(s, n, trapSec, child, va, access, true);
    ByLeaf(s0, n0, trapSec, parent, va, access, true);
    FrameInRange(s, n, trapSec, FrameOf(wc));
    ReadWriteGranted(FrameOf(wc));
    AddressParts(FrameOf(wc), va % PAGE_SIZE);
    AddressParts(FrameOf(wp), va % PAGE_SIZE);
  }

  lemma FrameInRange(s: State, n: nat, trapSec: nat, f: nat)
    requires Orderly(s, n, trapSec) && f in s.mem
    ensures f < PPN_LIMIT
  {
    hide TreesOk, FreeOk, TreesOwned, LeavesOwned;
  }

  /** A shared code page: the child fetches and loads from the parent's own frame, and cannot store to it. */
  lemma SharedPageRuns(s0: State, s: State, n0: nat, n: nat, trapSec: nat, parent: nat, child: nat, va: nat,
                       access: Access)
    requires Orderly(s0, n0, trapSec) && Orderly(s, n, trapSec)
    requires LeafWord(s, UserTree(parent), va / PAGE_SIZE) == LeafWord(s0, UserTree(parent), va / PAGE_SIZE)
    requires parent < n0 && child < n && parent != child && va < MAXVA
    requires PageShared(s, parent, child, va / PAGE_SIZE)
    ensures Root(UserTree(parent)) in s0.nodes && Root(UserTree(child)) in s.nodes
    ensures Translate(s.mem, s.nodes[Root(UserTree(child))], va, access, true) ==
      if access.Store? then Fault
      else Address(LookupPa(s0.mem, s0.nodes[Root(UserTree(parent))], va) + va % PAGE_SIZE)
  {
    hide Orderly, LeafWord, Valid, FrameOf, Translate, LookupPa, LeafEntry, ProtToType, Readable, Writable, Executable,
      UserPage;
    var v := va / PAGE_SIZE;
    var wp := LeafWord(s, UserTree(parent), v);
    ByLeaf(s, n, trapSec, child, va, access, true);
    ByLeaf(s0, n0, trapSec, parent, va, access, true);
    LeafInRange(s0, n0, trapSec, parent, v);
    AddressParts(FrameOf(wp), 0);
    EncodedLeaf(ToAddress(wp), READ_EXEC, true);
  }

  lemma LeafInRange(s: State, n: nat, trapSec: nat, p: nat, v: nat)
    requires Orderly(s, n, trapSec) && p < n && Valid(LeafWord(s, UserTree(p), v))
    ensures FrameOf(LeafWord(s, UserTree(p), v)) < PPN_LIMIT
  {
    hide Well, LeafWord, Valid;
    assert LeafOk(s, trapSec, p, v);
  }

  // ---- which pages a child has ----

  /** A region of the parent gives the child page v. */
  ghost predicate Gives(region: Region, v: nat) {
    match region.segment
    case StackSegment => v == STACK_VPN
    case DataSegment =>
      exists j: nat {:trigger DataVa(region, j)} :: j < region.npages && DataVa(region, j) / PAGE_SIZE == v
    case CodeSegment => region.va / PAGE_SIZE == v
    case _ => false
  }

  ghost predicate GivenBy(regions: seq<Region>, v: nat) {
    exists k :: 0 <= k < |regions| && Gives(regions[k], v)
  }

  lemma {:induction false} DataPagesMembers(region: Region, k: nat, v: nat)
    ensures v in DataPages(region, k) <==>
      exists j: nat {:trigger DataVa(region, j)} :: j < k && DataVa(region, j) / PAGE_SIZE == v
  {
    hide DataVa;
    if k > 0 {
      DataPagesMembers(region, k - 1, v);
      assert DataVa(region, k - 1) == DataVa(region, k - 1);
    }
  }

  lemma RegionPagesMembers(region: Region, v: nat)
    ensures v in RegionPages(region) <==> Gives(region, v) && !region.segment.StackSegment?
  {
    hide DataVa, DataPages;
    DataPagesMembers(region, region.npages, v);
  }

  lemma {:induction false} ChildPagesMembers(free: seq<nat>, trapSec: nat, regions: seq<Region>, v: nat)
    ensures v in ChildPages(free, trapSec, regions) <==> v in FirstPages(free, trapSec) || GivenBy(regions, v)
  {
    hide RegionPages, Gives;
    if regions != [] {
      var init, last := regions[..|regions| - 1], regions[|regions| - 1];
      ChildPagesMembers(free, trapSec, init, v);
      RegionPagesMembers(last, v);
      StackIsFirst(free, trapSec, last, v);
      if GivenBy(init, v) {
        var k :| 0 <= k < |init| && Gives(init[k], v);
        assert Gives(regions[k], v);
      }
      if GivenBy(regions, v) {
        var k :| 0 <= k < |regions| && Gives(regions[k], v);
        assert k < |init| ==> Gives(init[k], v);
      }
      assert Gives(last, v) ==> GivenBy(regions, v);
    }
  }

  lemma StackIsFirst(free: seq<nat>, trapSec: nat, region: Region, v: nat)
    ensures region.segment.StackSegment? && Gives(region, v) ==> v in FirstPages(free, trapSec)
  {
  }

  /** The child of a fork maps exactly the pages of every new process and those its parent's regions give it. */
  lemma ChildMapsExactly(s0: State, s: State, parent: nat, child: nat, trapSec: nat, regions: seq<Region>, v: nat)
    requires Grew(s0, s, parent, child, trapSec, regions)
    ensures Mapped(s, UserTree(child), v) <==> v in FirstPages(s0.free, trapSec) || GivenBy(regions, v)
  {
    hide LeafWord, Valid, ChildPages, FirstPages, GivenBy, AllFound, TablesExact, Tables, ChildFrames;
    ChildPagesMembers(s0.free, trapSec, regions, v);
    assert Mapped(s, UserTree(child), v) <==> Valid(LeafWord(s, UserTree(child), v));
  }

  /** A page of the parent outside its regions, such as a heap page, is not the child's; one inside is. */
  lemma InheritedIff(s0: State, s: State, parent: nat, child: nat, trapSec: nat, regions: seq<Region>, v: nat)
    requires Grew(s0, s, parent, child, trapSec, regions) && Mapped(s0, UserTree(parent), v)
    requires v !in FirstPages(s0.free, trapSec)
    ensures Mapped(s, UserTree(child), v) <==> GivenBy(regions, v)
  {
    hide Grew, Mapped, FirstPages, GivenBy;
    ChildMapsExactly(s0, s, parent, child, trapSec, regions, v);
  }

  /** Page j of a data region is copied at its own address exactly in the lowest and in the topmost 2 GB. */
  lemma OwnAddressIff(region: Region, j: nat)
    requires region.va + PAGE_SIZE * j < WORD_LIMIT && region.va % PAGE_SIZE == 0
    ensures DataVa(region, j) == region.va + PAGE_SIZE * j <==>
      region.va + PAGE_SIZE * j < 0x8000_0000 || region.va + PAGE_SIZE * j >= WORD_LIMIT - 0x8000_0000
  {
    ThroughIntIsIdentityIff(region.va + PAGE_SIZE * j);
  }

  /** The stack, or a recorded data or code region. */
  ghost predicate ForkedRegion(regions: seq<Region>, region: Region) {
    |regions| >= 3 && (region in regions[3..] || region == regions[0])
  }

  /**
   At va the child loads what the parent had, from a frame that was free, and may store there;
   or, for code, it is in the parent's own frame and may not.
   */
  ghost predicate ReadsAsParent(s0: State, s: State, parent: nat, child: nat, region: Region, va: nat, access: Access) {
    && Root(UserTree(parent)) in s0.nodes && Root(UserTree(child)) in s.nodes
    && var t, pa := Translate(s.mem, s.nodes[Root(UserTree(child))], va, access, true),
                    LookupPa(s0.mem, s0.nodes[Root(UserTree(parent))], va) + va % PAGE_SIZE;
       if region.segment.CodeSegment? then t == if access.Store? then Fault else Address(pa)
       else
         && t.Address? && t.pa / PAGE_SIZE in s0.roles && s0.roles[t.pa / PAGE_SIZE].Free?
         && WordAt(s.mem, t.pa) == WordAt(s0.mem, pa)
  }

  /** The pages a fork makes mean that, while the parent's own page stays. */
  lemma ForkedPageMeans(s0: State, s: State, before: seq<Space>, spaces: seq<Space>, trapSec: nat, exhausted: bool,
                        parent: nat, region: Region, va: nat, access: Access)
    requires Inv(s0, before, trapSec, exhausted) && Inv(s, spaces, trapSec, exhausted)
    requires |spaces| == |before| + 1 && spaces[..|before|] == before && parent < |before|
    requires PagesForked(s0, s, parent, |before|, before[parent].regions)
    requires LeafWord(s, UserTree(parent), va / PAGE_SIZE) == LeafWord(s0, UserTree(parent), va / PAGE_SIZE)
    requires region.segment.CodeSegment? || PageStays(s0, s, parent, va / PAGE_SIZE)
    requires ForkedRegion(before[parent].regions, region) && Gives(region, va / PAGE_SIZE)
    requires region.segment.CodeSegment? || !access.Fetch?
    ensures ReadsAsParent(s0, s, parent, |before|, region, va, access)
  {
    hide Orderly, LeafWord, Translate, LookupPa, PageCopied, PageShared, DataVa, OwnerOk, CodeOk, WordAt;
    var child, v := |before|, va / PAGE_SIZE;
    assert SpaceOk(s0, before, parent) && spaces[parent] == before[parent];
    RegionSegment(before[parent].regions, region);
    if region.segment.CodeSegment? {
      SharedBelow(s, |spaces|, trapSec, parent, child, v);
      SharedPageRuns(s0, s, |before|, |spaces|, trapSec, parent, child, va, access);
    } else {
      GivenIsCopied(s0, s, parent, child, before[parent].regions, region, v);
      CopiedBelow(s0, s, |spaces|, trapSec, parent, child, v);
      CopiedPageReads(s0, s, |before|, |spaces|, trapSec, parent, child, va, access);
    }
  }

  lemma LeafStays(s0: State, s: State, p: nat, v: nat)
    requires PageStays(s0, s, p, v)
    ensures LeafWord(s, UserTree(p), v) == LeafWord(s0, UserTree(p), v)
  {
  }

  /**
   After a fork, for every page a region gives the child, at any address: data and stack
   read as they did for the parent, but from frames of the child's own; code runs in the
   parent's frames and cannot be stored to.
   */
  lemma ForkPreservesMeaning(s0: State, s: State, before: seq<Space>, spaces: seq<Space>, trapSec: nat, exhausted: bool,
                             parent: nat, region: Region, va: nat, access: Access)
    requires Inv(s0, before, trapSec, exhausted) && Inv(s, spaces, trapSec, exhausted)
    requires |spaces| == |before| + 1 && spaces[..|before|] == before && parent < |before|
    requires ForkDone(s0, s, spaces, parent, |before|)
    requires ForkedRegion(before[parent].regions, region) && Gives(region, va / PAGE_SIZE)
    requires region.segment.CodeSegment? || !access.Fetch?
    ensures ReadsAsParent(s0, s, parent, |before|, region, va, access)
  {
    hide Orderly, Evolves, PagesForked, ContextCopied, OwnerOk, CodeOk, SpaceOk, PageStays, ReadsAsParent;
    assert spaces[parent] == before[parent];
    ParentPageStays(s0, s, |before|, trapSec, parent, |before|, va / PAGE_SIZE);
    LeafStays(s0, s, parent, va / PAGE_SIZE);
    ForkedPageMeans(s0, s, before, spaces, trapSec, exhausted, parent, region, va, access);
  }

  lemma SharedBelow(s: State, n: nat, trapSec: nat, parent: nat, child: nat, v: nat)
    requires Orderly(s, n, trapSec) && PageShared(s, parent, child, v)
    ensures v < MAXVPN
  {
    hide Orderly, LeafWord, Valid, FrameOf, LeafEntry, ProtToType;
    CodeBelow(s, trapSec, n, child, v);
  }

  lemma CopiedBelow(s0: State, s: State, n: nat, trapSec: nat, parent: nat, child: nat, v: nat)
    requires Orderly(s, n, trapSec) && PageCopied(s0, s, parent, child, v)
    ensures v < MAXVPN
  {
    hide Orderly, LeafWord, Valid, FrameOf, UserReadWrite;
    CodeBelow(s, trapSec, n, child, v);
  }

  /** A page that the stack or a data region gives the child is a copy. */
  lemma GivenIsCopied(s0: State, s: State, parent: nat, child: nat, regions: seq<Region>, region: Region, v: nat)
    requires PagesForked(s0, s, parent, child, regions) && RegionsOk(regions)
    requires ForkedRegion(regions, region) && Gives(region, v) && !region.segment.CodeSegment?
    ensures PageCopied(s0, s, parent, child, v) && BelowImage(v)
  {
    hide PageCopied, DataVa, RegionsOk, ForkedRegion;
    RegionSegment(regions, region);
    if region.segment.DataSegment? {
      var j: nat :| j < region.npages && DataVa(region, j) / PAGE_SIZE == v;
      DataPageBelow(region, j);
    }
  }

  lemma RegionSegment(regions: seq<Region>, region: Region)
    requires RegionsOk(regions) && ForkedRegion(regions, region)
    ensures region.va % PAGE_SIZE == 0
    ensures region == regions[0] ==> region == Region(STACK_VPN * PAGE_SIZE, 1, StackSegment)
    ensures region != regions[0] ==>
      && (region.segment.CodeSegment? || region.segment.DataSegment?)
      && exists k :: 3 <= k < |regions| && regions[k] == region
  {
    if region != regions[0] {
      var i :| 0 <= i < |regions[3..]| && regions[3..][i] == region;
      assert regions[i + 3] == region;
    }
  }
}
