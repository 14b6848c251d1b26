/**
 The memory of the first process (kernel/elf.c): a page for each loaded segment, recorded
 as code or data; and what a store by a user program can change.
 */
module Load {
  import opened Words
  import opened Sv39
  import opened Layout
  import opened Pmm
  import opened Vmm
  import opened Hardware
  import opened Ownership
  import opened UserMemory
  import opened Spaces
  import opened Shape
  import opened Fork
  import ForkMeaning

  const READ_WRITE_EXEC: nat := PROT_WRITE + PROT_READ + PROT_EXEC

  function SegmentRole(region: Region): Role {
    if region.segment.CodeSegment? then Code(region.va / PAGE_SIZE) else Private(0, region.va / PAGE_SIZE)
  }

  /** A page taken and granted, seen from before it was taken. */
  lemma GrantEvolves(s0: State, s1: State, s2: State, pid: nat, v: nat, f: nat, role: Role, w: nat)
    requires Took(s0, s1, f) && Granted(s1, s2, pid, v, f, role, w)
    ensures Evolves(s0, s2, pid, {}) && LeafChanged(s0, s2, UserTree(pid), v, w)
    ensures !Valid(LeafWord(s0, UserTree(pid), v))
    ensures f in s2.roles && s2.roles[f] == role
    ensures forall g :: g in s2.roles && g != f && s2.roles[g].Plain() ==> g in s0.roles && s0.roles[g].Plain()
  {
    hide LeafWord, Valid;
    TookEvolves(s0, s1, f, pid);
    EvolvesTrans(s0, s1, s2, pid, {}, {f});
    EvolvesFresh(s0, s2, pid, {} + {f});
  }

  lemma LoadedCode(s0: State, s2: State, spaces: seq<Space>, trapSec: nat, region: Region, f: nat, w: nat, u: nat)
    requires |spaces| == 1 && CodeOk(s0, spaces, 0, u) && LeavesOwned(s0, 1, trapSec) && s0.mem.Keys == s0.roles.Keys
    requires Evolves(s0, s2, 0, {}) && LeafChanged(s0, s2, UserTree(0), region.va / PAGE_SIZE, w)
    requires !Valid(LeafWord(s0, UserTree(0), region.va / PAGE_SIZE))
    requires Valid(w) && FrameOf(w) == f && f in s2.roles && s2.roles[f] == SegmentRole(region)
    ensures CodeOk(s2, WithRegion(spaces, 0, region), 0, u)
  {
    hide LeafWord, Valid, FrameOf, Evolves, CodePages, LeavesOwned;
    CodePagesNext(spaces[0].regions, region);
    assert LeafWord(s2, UserTree(0), u) == if u == region.va / PAGE_SIZE then w else LeafWord(s0, UserTree(0), u);
    if u != region.va / PAGE_SIZE {
      CodeStays(s0, s2, spaces, trapSec, 0, 0, u);
    }
  }

  lemma LoadedOwner(s0: State, s2: State, spaces: seq<Space>, exhausted: bool, region: Region, f: nat, g: nat)
    requires |spaces| == 1 && g in s2.roles && g in s0.roles && g in s0.mem && OwnerOk(s0, spaces, exhausted, g)
    requires FramesStay(s0, s2, {}) && f in s2.roles && s2.roles[f] == SegmentRole(region)
    requires g != f && s2.roles[g].Plain() ==> s0.roles[g].Plain()
    ensures OwnerOk(s2, WithRegion(spaces, 0, region), exhausted, g)
  {
  }

  /** A segment of the first process, mapped and recorded, keeps the invariant. */
  lemma LoadKeepsInv(s0: State, s1: State, s2: State, spaces: seq<Space>, trapSec: nat, exhausted: bool,
                     region: Region, f: nat, w: nat)
    requires Inv(s0, spaces, trapSec, exhausted) && |spaces| == 1 && Took(s0, s1, f)
    requires Granted(s1, s2, 0, region.va / PAGE_SIZE, f, SegmentRole(region), w) && Valid(w) && FrameOf(w) == f
    requires Orderly(s2, 1, trapSec)
    requires (region.segment.CodeSegment? || region.segment.DataSegment?)
    requires region.va % PAGE_SIZE == 0 && region.va < WORD_LIMIT
    ensures Inv(s2, WithRegion(spaces, 0, region), trapSec, exhausted) && Evolves(s0, s2, 0, {})
  {
    hide LeafWord, Valid, FrameOf, TreesOk, FreeOk, LeavesOwned, TreesOwned, CodeOk, Granted, Took, LeafChanged,
      OwnerOk, LeavesStay, NodesStay;
    GrantEvolves(s0, s1, s2, 0, region.va / PAGE_SIZE, f, SegmentRole(region), w);
    var spaces' := WithRegion(spaces, 0, region);
    assert s0.mem.Keys == s0.roles.Keys;
    assert SpaceOk(s0, spaces, 0);
    SpaceStays(s0, s2, spaces, 0, 0);
    assert SpaceOk(s2, spaces', 0);
    forall g | g in s2.roles ensures OwnerOk(s2, spaces', exhausted, g) {
      assert g in s0.roles.Keys && g in s0.mem.Keys && OwnerOk(s0, spaces, exhausted, g);
      LoadedOwner(s0, s2, spaces, exhausted, region, f, g);
    }
    forall pid: nat, u: nat | pid < |spaces'| ensures CodeOk(s2, spaces', pid, u) {
      assert CodeOk(s0, spaces, 0, u);
      LoadedCode(s0, s2, spaces, trapSec, region, f, w, u);
    }
  }

  /** The segment is in memory: its page, which the program may use in every way, leads to a frame with its words. */
  ghost predicate Loaded(s: State, region: Region, content: Page) {
    var w := LeafWord(s, UserTree(0), region.va / PAGE_SIZE);
    && Valid(w) && FrameOf(w) in s.mem && s.mem[FrameOf(w)] == content
    && FrameOf(w) in s.roles && s.roles[FrameOf(w)] == SegmentRole(region)
    && Readable(w) && Writable(w) && Executable(w) && UserPage(w)
  }

  /** So the hart fetches, loads and stores at every address of the page, and finds the words of the segment. */
  lemma SegmentRuns(s: State, n: nat, trapSec: nat, region: Region, content: Page, va: nat, access: Access)
    requires Orderly(s, n, trapSec) && 0 < n && Loaded(s, region, content) && va / 4096 == region.va / 4096
    ensures Root(UserTree(0)) in s.nodes
    ensures var t := Translate(s.mem, s.nodes[Root(UserTree(0))], va, access, true);
      t.Address? && va % 4096 / 8 < |content| && ForkMeaning.WordAt(s.mem, t.pa) == content[va % 4096 / 8]
  {
    hide Orderly, LeafWord, Valid, FrameOf, Translate, LookupPa, Readable, Writable, Executable, UserPage;
    CodeBelow(s, trapSec, n, 0, va / PAGE_SIZE);
    ForkMeaning.ByLeaf(s, n, trapSec, 0, va, access, true);
    var f := FrameOf(LeafWord(s, UserTree(0), va / PAGE_SIZE));
    OffsetFacts(f, va % PAGE_SIZE);
    PageSize(s, n, trapSec, f);
  }

  lemma PageSize(s: State, n: nat, trapSec: nat, f: nat)
    requires Orderly(s, n, trapSec) && f in s.mem
    ensures |s.mem[f]| == 512
  {
    hide TreesOk, FreeOk, TreesOwned, LeavesOwned;
  }

  /** Take a page, fill it with the segment and map it for the first process. */
  method LoadPage(mc: Machine, spaces: seq<Space>, region: Region, content: Page, ghost trapSec: nat,
                  ghost exhausted: bool,
                  ghost s0: State, ghost pages: seq<nat>, ghost taken: nat)
      returns (r: Outcome)
    requires mc.Valid() && Inv(mc.S(), spaces, trapSec, exhausted) && |spaces| == 1 && |content| == ENTRIES
    requires (region.segment.CodeSegment? || region.segment.DataSegment?)
    requires region.va % PAGE_SIZE == 0 && region.va < WORD_LIMIT
    modifies mc
    ensures mc.startAddr == old(mc.startAddr) && mc.endAddr == old(mc.endAddr)
    ensures r.Done? || r.Halted?
    ensures r.Done? <==> old(mc.free) != [] && CanGrant(old(mc.S()), UserTree(0), region.va / PAGE_SIZE)
    ensures Shaped(s0, old(mc.S()), 0, pages, taken) ==>
      && (r.Done? <==> Fits(s0, 0, pages + [region.va / PAGE_SIZE], taken + 1))
      && (r.Done? ==> Shaped(s0, mc.S(), 0, pages + [region.va / PAGE_SIZE], taken + 1))
    ensures r.Done? ==>
      && mc.Valid() && Inv(mc.S(), WithRegion(spaces, 0, region), trapSec, exhausted)
      && Evolves(old(mc.S()), mc.S(), 0, {})
      && Loaded(mc.S(), region, content)
      && Leads(mc.S(), 0, region.va / PAGE_SIZE, Link(old(mc.free), 0) / PAGE_SIZE)
  {
    hide Well, Inv, Orderly, Evolves, LeafWord, Valid, FrameOf, Took, Granted, MayLead, LeafEntry, ProtToType,
      WithRegion, Shaped, Fits, CanGrant, CanMap, TablesAdded, PathOf, Mapped, Vacant;
    ghost var s, v := mc.S(), region.va / PAGE_SIZE;
    InvGives(s, spaces, trapSec, exhausted, 0);
    OnePage(region.va);
    var pa := TakePage(mc, 1, trapSec);
    if pa == 0 {
      if Shaped(s0, s, 0, pages, taken) { NothingFits(s0, s, 0, pages, taken, v); }
      return Halted;
    }
    ghost var s1 := mc.S();
    var f := pa / PAGE_SIZE;
    mc.mem := mc.mem[f := content];
    ghost var s2 := mc.S();
    FillTaken(s, s1, s2, 1, trapSec, f, content);
    SameNodes(s, s2, f, UserTree(0), v);
    SegmentMayLead(s, s2, trapSec, region, f);
    GrantCondition(s, s2, UserTree(0), v);
    if Shaped(s0, s, 0, pages, taken) { TakenShape(s0, s, s2, 0, pages, taken, f, v); }
    r := MapOwned(mc, spaces[0].root * PAGE_SIZE, region.va, PAGE_SIZE, pa, READ_WRITE_EXEC, true, 1, trapSec, 0,
                  SegmentRole(region));
    if !r.Done? { return Halted; }
    EncodedLeaf(pa, READ_WRITE_EXEC, true);
    if Shaped(s0, s, 0, pages, taken) {
      GrantedShape(s0, s2, mc.S(), 0, pages, taken + 1, v, f, SegmentRole(region),
                   LeafEntry(pa, ProtToType(READ_WRITE_EXEC, true)));
    }
    LoadKeepsInv(s, s2, mc.S(), spaces, trapSec, exhausted, region, f,
                 LeafEntry(pa, ProtToType(READ_WRITE_EXEC, true)));
    LoadedContent(s, s2, mc.S(), v, f, SegmentRole(region), LeafEntry(pa, ProtToType(READ_WRITE_EXEC, true)));
  }

  lemma SegmentMayLead(s: State, s1: State, trapSec: nat, region: Region, f: nat)
    requires Took(s, s1, f)
    ensures MayLead(s1, trapSec, 0, region.va / PAGE_SIZE, f, SegmentRole(region))
  {
  }

  lemma LoadedContent(s: State, s1: State, s2: State, v: nat, f: nat, role: Role, w: nat)
    requires Took(s, s1, f) && Granted(s1, s2, 0, v, f, role, w)
    ensures f in s1.mem && f in s2.mem && s2.mem[f] == s1.mem[f] && LeafWord(s2, UserTree(0), v) == w
    ensures f in s2.roles && s2.roles[f] == role
  {
    hide LeafWord, Valid;
    assert f in s1.mem.Keys && f in s2.mem.Keys && f in s2.roles.Keys;
  }

  /** A loaded segment stays when more is loaded, and when trapframes are written. */
  lemma LoadedStays(s: State, s': State, region: Region, content: Page)
    requires Loaded(s, region, content)
    requires Evolves(s, s', 0, {}) || (SameLeaves(s, s') && s'.roles == s.roles && s'.mem.Keys == s.mem.Keys &&
      forall g :: g in s.roles && g in s.mem && !s.roles[g].Trapframe? ==> s'.mem[g] == s.mem[g])
    ensures Loaded(s', region, content)
  {
    hide LeafWord, Valid, FrameOf, NodesStay;
    var w := LeafWord(s, UserTree(0), region.va / PAGE_SIZE);
    assert LeafWord(s', UserTree(0), region.va / PAGE_SIZE) == w;
    assert FrameOf(w) in s'.mem.Keys && FrameOf(w) in s'.roles.Keys;
  }

  // ---- stores by user programs ----

  /** The only frames a user program can write are its own pages and, for the first process, code pages. */
  lemma StoreTarget(s: State, n: nat, trapSec: nat, pid: nat, va: nat, pa: nat)
    requires Orderly(s, n, trapSec) && pid < n && Root(UserTree(pid)) in s.nodes && va < WORD_LIMIT
    requires Translate(s.mem, s.nodes[Root(UserTree(pid))], va, Store, true) == Address(pa)
    ensures Leads(s, pid, va / PAGE_SIZE, pa / PAGE_SIZE) && pa % PAGE_SIZE == va % PAGE_SIZE
    ensures pa / PAGE_SIZE in s.roles ==>
      && s.roles[pa / PAGE_SIZE].Plain()
      && (s.roles[pa / PAGE_SIZE] == Private(pid, va / PAGE_SIZE)
          || (pid == 0 && s.roles[pa / PAGE_SIZE] == Code(va / PAGE_SIZE)))
  {
    hide Well, TreesOwned, LeafWord, Valid, FrameOf, WalkFrom, Bit;
    if va >= MAXVA {
      UpperHalfFaults(s, UserTree(pid), va, Store, true);
    } else {
      assert LeafOk(s, trapSec, pid, va / PAGE_SIZE);
      SoundUnlessInvalid(LeafWord(s, UserTree(pid), va / PAGE_SIZE));
      SoftwareAgreesWithHardware(s, UserTree(pid), va, Store, true);
      OffsetFacts(FrameOf(LeafWord(s, UserTree(pid), va / PAGE_SIZE)), va % PAGE_SIZE);
    }
  }

  /**
   A store by process pid: the word that contains the address takes a new value.  It lies in
   a page of its own or, for the first process, in a code page; no table, leaf or other frame changes.
   */
  method UserStore(mc: Machine, root: nat, va: nat, value: nat, ghost spaces: seq<Space>, ghost trapSec: nat,
                   ghost exhausted: bool, ghost pid: nat)
      returns (r: Outcome)
    requires mc.Valid() && Inv(mc.S(), spaces, trapSec, exhausted) && pid < |spaces| && root == spaces[pid].root
    requires va < WORD_LIMIT
    modifies mc
    ensures mc.Valid() && mc.startAddr == old(mc.startAddr) && mc.endAddr == old(mc.endAddr)
    ensures Inv(mc.S(), spaces, trapSec, exhausted) && SameLeaves(old(mc.S()), mc.S()) && mc.roles == old(mc.roles)
    ensures mc.free == old(mc.free) && mc.nodes == old(mc.nodes) && mc.mem.Keys == old(mc.mem.Keys)
    ensures mc.head == old(mc.head)
    ensures !r.Done? ==> mc.S() == old(mc.S())
    ensures r.Failed? <==> Translate(old(mc.mem), root, va, Store, true).Fault?
    ensures r.Done? <==>
      var t := Translate(old(mc.mem), root, va, Store, true); t.Address? && t.pa / PAGE_SIZE in old(mc.mem)
    ensures r.Done? ==>
      var f := Translate(old(mc.mem), root, va, Store, true).pa / PAGE_SIZE;
      && f == FrameOf(LeafWord(old(mc.S()), UserTree(pid), va / PAGE_SIZE))
      && f in old(mc.mem) && |old(mc.mem)[f]| == ENTRIES
      && mc.mem == old(mc.mem)[f := Put(old(mc.mem)[f], va % PAGE_SIZE / 8, value)]
      && (mc.roles[f] == Private(pid, va / PAGE_SIZE) || (pid == 0 && mc.roles[f] == Code(va / PAGE_SIZE)))
  {
    hide Inv, Orderly, LeafWord, Valid, FrameOf, Translate, TreesOk, FreeOk, SameLeaves;
    ghost var s := mc.S();
    InvGives(s, spaces, trapSec, exhausted, pid);
    StayPut(s);
    match Translate(mc.mem, root, va, Store, true) {
      case Fault => return Failed;
      case Address(pa) =>
        StoreTarget(s, |spaces|, trapSec, pid, va, pa);
        var f := pa / PAGE_SIZE;
        if f !in mc.mem { return Halted; }
        var page := Put(mc.mem[f], pa % PAGE_SIZE / 8, value);
        assert f in s.roles.Keys && s.roles[f := s.roles[f]] == s.roles;
        ContentKeepsInv(s, spaces, trapSec, exhausted, f, page);
        mc.mem := mc.mem[f := page];
        return Done;
    }
  }

  lemma StayPut(s: State)
    ensures SameLeaves(s, s)
  {
  }
}
