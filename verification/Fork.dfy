/**
 do_fork on memory (kernel/process.c): the child gets copies of the parent's stack and data
 pages in fresh frames, the parent's own code frames, and a copy of its saved context.
 */
module Fork {
  import opened Words
  import opened Sv39
  import opened Layout
  import opened Pmm
  import opened Vmm
  import opened Hardware
  import opened Ownership
  import opened UserMemory
  import opened Spaces
  import opened Birth
  import opened Shape

  /** Page v of the child is a copy, in a frame that was free at the start, of page v of the parent. */
  ghost predicate PageCopied(s0: State, s: State, parent: nat, child: nat, v: nat) {
    var wp, wc := LeafWord(s, UserTree(parent), v), LeafWord(s, UserTree(child), v);
    && Valid(wp) && Valid(wc)
    && FrameOf(wp) in s.mem && FrameOf(wc) in s.mem && s.mem[FrameOf(wc)] == s.mem[FrameOf(wp)]
    && FrameOf(wc) in s.roles && s.roles[FrameOf(wc)] == Private(child, v)
    && FrameOf(wc) in s0.roles && s0.roles[FrameOf(wc)].Free?
    && wc == UserReadWrite(FrameOf(wc) * PAGE_SIZE)
  }

  /** Page v of the child leads to the parent's own frame, for reading and execution. */
  ghost predicate PageShared(s: State, parent: nat, child: nat, v: nat) {
    var wp, wc := LeafWord(s, UserTree(parent), v), LeafWord(s, UserTree(child), v);
    Valid(wp) && Valid(wc) && wc == LeafEntry(ToAddress(wp), ProtToType(READ_EXEC, true)) && FrameOf(wc) == FrameOf(wp)
  }

  lemma OnePage(va: nat)
    requires va % PAGE_SIZE == 0 && va < WORD_LIMIT
    ensures PageCount(va, PAGE_SIZE) == 1
  {
  }

  /** lookup_pa finds the frame of a mapped page of a process. */
  lemma LookupFinds(s: State, n: nat, trapSec: nat, pid: nat, va: nat)
    requires Orderly(s, n, trapSec) && pid < n && Root(UserTree(pid)) in s.nodes
    ensures LookupPa(s.mem, s.nodes[Root(UserTree(pid))], va) ==
      if va < MAXVA && Valid(LeafWord(s, UserTree(pid), va / PAGE_SIZE))
      then FrameOf(LeafWord(s, UserTree(pid), va / PAGE_SIZE)) * PAGE_SIZE else 0
  {
    hide Well, TreesOwned, LeafWord, Valid, FrameOf, Descend;
    if va < MAXVA {
      assert LeafOk(s, trapSec, pid, va / PAGE_SIZE);
      SoundUnlessInvalid(LeafWord(s, UserTree(pid), va / PAGE_SIZE));
      SoftwareAgreesWithHardware(s, UserTree(pid), va, Load, true);
    }
  }

  lemma SoundUnlessInvalid(w: nat)
    ensures !Valid(w) ==> Sound(w)
  {
  }

  /** A page of a process that lookup_pa finds, in memory. */
  ghost predicate Found(s: State, pid: nat, v: nat) {
    v < MAXVPN && Valid(LeafWord(s, UserTree(pid), v)) && FrameOf(LeafWord(s, UserTree(pid), v)) in s.mem
  }

  lemma FoundStays(s0: State, s: State, pid: nat, who: nat, v: nat)
    requires Evolves(s0, s, who, {}) && pid != who
    ensures Found(s, pid, v) <==> Found(s0, pid, v)
  {
    hide LeafWord, Valid, FrameOf, NodesStay;
    assert LeafWord(s, UserTree(pid), v) == LeafWord(s0, UserTree(pid), v);
    assert s.mem.Keys == s0.mem.Keys;
  }

  /** A lookup leads to memory exactly when it finds the page. */
  lemma LookupDecides(s: State, n: nat, trapSec: nat, pid: nat, va: nat)
    requires Orderly(s, n, trapSec) && pid < n && Root(UserTree(pid)) in s.nodes
    ensures LookupPa(s.mem, s.nodes[Root(UserTree(pid))], va) / PAGE_SIZE in s.mem <==> Found(s, pid, va / PAGE_SIZE)
  {
    hide TreesOk, FreeOk, TreesOwned, LeavesOwned, LeafWord, Valid, FrameOf, LookupPa;
    LookupFinds(s, n, trapSec, pid, va);
    AddressOfFrame(FrameOf(LeafWord(s, UserTree(pid), va / PAGE_SIZE)));
    assert 0 !in s.mem;
  }

  lemma CopyStays(s0: State, s: State, s': State, n: nat, trapSec: nat, parent: nat, child: nat, v: nat)
    requires PageCopied(s0, s, parent, child, v) && Evolves(s, s', child, {})
    requires LeavesOwned(s, n, trapSec) && parent < n && s.mem.Keys == s.roles.Keys
    ensures PageCopied(s0, s', parent, child, v)
  {
    hide LeafWord, Valid, FrameOf, UserReadWrite, NodesStay;
    PlainTarget(s, n, trapSec, parent, v);
    var wp, wc := LeafWord(s, UserTree(parent), v), LeafWord(s, UserTree(child), v);
    assert LeafWord(s', UserTree(parent), v) == wp && LeafWord(s', UserTree(child), v) == wc;
    assert FrameOf(wp) in s.roles.Keys && FrameOf(wp) in s'.mem.Keys && FrameOf(wc) in s'.mem.Keys;
    assert FrameOf(wc) in s'.roles.Keys;
  }

  lemma ShareStays(s: State, s': State, parent: nat, child: nat, v: nat)
    requires PageShared(s, parent, child, v) && Evolves(s, s', child, {})
    ensures PageShared(s', parent, child, v)
  {
    hide LeafWord, Valid, FrameOf, LeafEntry, ProtToType, NodesStay, FramesStay;
    assert LeafWord(s', UserTree(parent), v) == LeafWord(s, UserTree(parent), v);
    assert LeafWord(s', UserTree(child), v) == LeafWord(s, UserTree(child), v);
  }

  // ---- data ----

  /** Take a page, copy a page of the parent into it and map it for the child at the same address. */
  method ForkDataPage(mc: Machine, parentRoot: nat, childRoot: nat, va: nat, ghost s0: State, ghost spaces: seq<Space>,
                      ghost trapSec: nat, ghost exhausted: bool, ghost parent: nat, ghost child: nat,
                      ghost pages: seq<nat>, ghost taken: nat)
      returns (r: Outcome)
    requires mc.Valid() && Inv(mc.S(), spaces, trapSec, exhausted) && Evolves(s0, mc.S(), child, {})
    requires parent < |spaces| && child < |spaces| && parent != child && Shaped(s0, mc.S(), child, pages, taken)
    requires parentRoot == spaces[parent].root && childRoot == spaces[child].root
    requires va % PAGE_SIZE == 0 && va < WORD_LIMIT
    modifies mc
    ensures mc.startAddr == old(mc.startAddr) && mc.endAddr == old(mc.endAddr)
    ensures r.Done? || r.Halted?
    ensures r.Done? <==> Found(s0, parent, va / PAGE_SIZE) && Fits(s0, child, pages + [va / PAGE_SIZE], taken + 1)
    ensures r.Done? ==>
      && mc.Valid() && Inv(mc.S(), spaces, trapSec, exhausted) && Evolves(old(mc.S()), mc.S(), child, {})
      && PageCopied(s0, mc.S(), parent, child, va / PAGE_SIZE)
      && Shaped(s0, mc.S(), child, pages + [va / PAGE_SIZE], taken + 1)
  {
    hide Well, Inv, Orderly, Evolves, LeafWord, Valid, FrameOf, Took, Granted, MayLead, PageCopied, LeafEntry,
      ProtToType, Shaped, Fits, CanMap, Found, TablesAdded, PathOf, LookupPa, SameLeaves;
    ghost var s, n, v := mc.S(), |spaces|, va / PAGE_SIZE;
    InvGives(s, spaces, trapSec, exhausted, parent);
    InvGives(s, spaces, trapSec, exhausted, child);
    OnePage(va);
    var pa := TakePage(mc, n, trapSec);
    ghost var s1 := mc.S();
    var f := pa / PAGE_SIZE;
    if pa == 0 {
      NothingFits(s0, s, child, pages, taken, v);
      return Halted;
    }
    SameNodes(s, s1, f, UserTree(parent), v);
    LookupFinds(s1, n, trapSec, parent, va);
    LookupDecides(s1, n, trapSec, parent, va);
    FoundAfterTake(s0, s, s1, f, parent, child, v);
    var src := LookupPa(mc.mem, parentRoot, va) / PAGE_SIZE;
    if src !in mc.mem { return Halted; }
    var page := mc.mem[src];
    SourceFacts(s, s1, n, trapSec, parent, va, f, src);
    mc.mem := mc.mem[f := page];
    ghost var s2 := mc.S();
    FillTaken(s, s1, s2, n, trapSec, f, page);
    SameNodes(s, s2, f, UserTree(child), v);
    TakenMayLead(s, s2, trapSec, child, v, f);
    TakenShape(s0, s, s2, child, pages, taken, f, v);
    r := MapOwned(mc, childRoot * PAGE_SIZE, va, PAGE_SIZE, pa, READ_WRITE, true, n, trapSec, child, Private(child, v));
    if !r.Done? { return Halted; }
    EncodedLeaf(pa, READ_WRITE, true);
    GrantedShape(s0, s2, mc.S(), child, pages, taken + 1, v, f, Private(child, v), UserReadWrite(pa));
    DataPageCopied(s0, s, s1, s2, mc.S(), spaces, trapSec, exhausted, parent, child, va, pa, src);
  }

  lemma FoundAfterTake(s0: State, s: State, s1: State, f: nat, parent: nat, child: nat, v: nat)
    requires Evolves(s0, s, child, {}) && Took(s, s1, f) && parent != child
    ensures Found(s1, parent, v) <==> Found(s0, parent, v)
  {
    hide Evolves, Found, Took;
    TookEvolves(s, s1, f, child);
    EvolvesThen(s0, s, s1, child);
    FoundStays(s0, s1, parent, child, v);
  }

  lemma TakenShape(s0: State, s: State, s2: State, child: nat, pages: seq<nat>, taken: nat, f: nat, v: nat)
    requires Shaped(s0, s, child, pages, taken) && Took(s, s2, f) && s.free != [] && s2.free == s.free[1..]
    ensures Shaped(s0, s2, child, pages, taken + 1)
    ensures CanMap(s2, UserTree(child), v, 1) <==> Fits(s0, child, pages + [v], taken + 1)
  {
    hide Shaped, Fits, CanMap, SameLeaves;
    ShapedTake(s0, s, s2, child, pages, taken);
    CanMapNext(s0, s2, child, pages, taken + 1, v);
  }

  lemma GrantedShape(s0: State, s: State, s': State, n: nat, pages: seq<nat>, taken: nat, v: nat, f: nat, role: Role,
                     w: nat)
    requires Shaped(s0, s, n, pages, taken) && Fits(s0, n, pages + [v], taken) && Granted(s, s', n, v, f, role, w)
    requires TablesAdded(s, s', PathOf(UserTree(n), v) - s.nodes.Keys) && Valid(w)
    ensures Shaped(s0, s', n, pages + [v], taken)
  {
    hide Shaped, Fits, Evolves, LeafChanged, TablesAdded, PathOf, RolesKept, LeafWord, Valid;
    ShapedMap(s0, s, s', n, pages, taken, v, w);
  }

  lemma SourceFacts(s: State, s1: State, n: nat, trapSec: nat, parent: nat, va: nat, f: nat, src: nat)
    requires Took(s, s1, f) && Orderly(s1, n, trapSec) && parent < n && src in s1.mem
    requires src == (if va < MAXVA && Valid(LeafWord(s1, UserTree(parent), va / PAGE_SIZE))
      then FrameOf(LeafWord(s1, UserTree(parent), va / PAGE_SIZE)) * PAGE_SIZE else 0) / PAGE_SIZE
    ensures |s1.mem[src]| == ENTRIES && src != f && src in s1.roles && s1.roles[src].Plain()
    ensures Valid(LeafWord(s1, UserTree(parent), va / PAGE_SIZE))
    ensures FrameOf(LeafWord(s1, UserTree(parent), va / PAGE_SIZE)) == src
  {
    hide TreesOk, FreeOk, TreesOwned, LeafWord, Valid, FrameOf, LeavesOwned;
    AddressOfFrame(FrameOf(LeafWord(s1, UserTree(parent), va / PAGE_SIZE)));
    PlainTarget(s1, n, trapSec, parent, va / PAGE_SIZE);
    assert src in s1.roles.Keys;
  }

  lemma FillTaken(s: State, s1: State, s2: State, n: nat, trapSec: nat, f: nat, page: Page)
    requires Took(s, s1, f) && Orderly(s1, n, trapSec) && |page| == ENTRIES && s2 == s1.(mem := s1.mem[f := page])
    ensures Took(s, s2, f) && Orderly(s2, n, trapSec) && Well(s2)
  {
    hide TreesOk, FreeOk, TreesOwned, LeavesOwned, LeafWord;
    assert s1.roles[f := Taken] == s1.roles;
    assert s2 == Fill(s1, f, page, Taken);
    TookThenFilled(s, s1, f, page);
    FillIsOrderly(s1, n, trapSec, f, page, Taken);
  }

  /** The page taken, filled and granted is a copy. */
  lemma CopyMade(s0: State, s: State, s1: State, s2: State, s3: State, parent: nat, child: nat, va: nat, pa: nat,
                 src: nat)
    requires Evolves(s0, s, child, {}) && parent != child
    requires Took(s, s1, pa / PAGE_SIZE) && Took(s, s2, pa / PAGE_SIZE) && pa / PAGE_SIZE < PPN_LIMIT
    requires pa % PAGE_SIZE == 0
    requires src in s1.mem && src in s1.roles && s1.roles[src].Plain() && src != pa / PAGE_SIZE
    requires s2 == s1.(mem := s1.mem[pa / PAGE_SIZE := s1.mem[src]])
    requires Valid(LeafWord(s1, UserTree(parent), va / PAGE_SIZE))
    requires FrameOf(LeafWord(s1, UserTree(parent), va / PAGE_SIZE)) == src
    requires Granted(s2, s3, child, va / PAGE_SIZE, pa / PAGE_SIZE, Private(child, va / PAGE_SIZE), UserReadWrite(pa))
    ensures PageCopied(s0, s3, parent, child, va / PAGE_SIZE)
  {
    hide LeafWord, Valid, FrameOf, LeafEntry, ProtToType, NodesStay, LeavesStay, RolesKept;
    var v, f := va / PAGE_SIZE, pa / PAGE_SIZE;
    EncodedLeaf(pa, READ_WRITE, true);
    assert LeafWord(s1, UserTree(parent), v) == LeafWord(s, UserTree(parent), v);
    assert LeafWord(s2, UserTree(parent), v) == LeafWord(s, UserTree(parent), v);
    assert LeafWord(s3, UserTree(parent), v) == LeafWord(s2, UserTree(parent), v);
    assert f in s3.mem.Keys && src in s3.mem.Keys && f in s3.roles.Keys && f in s0.roles.Keys;
  }

  lemma DataPageCopied(s0: State, s: State, s1: State, s2: State, s3: State, spaces: seq<Space>, trapSec: nat,
                       exhausted: bool,
                       parent: nat, child: nat, va: nat, pa: nat, src: nat)
    requires Inv(s, spaces, trapSec, exhausted) && parent < |spaces| && child < |spaces| && Evolves(s0, s, child, {})
    requires parent != child
    requires Took(s, s1, pa / PAGE_SIZE) && Took(s, s2, pa / PAGE_SIZE) && pa / PAGE_SIZE < PPN_LIMIT
    requires pa % PAGE_SIZE == 0
    requires src in s1.mem && src in s1.roles && s1.roles[src].Plain() && src != pa / PAGE_SIZE
    requires s2 == s1.(mem := s1.mem[pa / PAGE_SIZE := s1.mem[src]])
    requires Valid(LeafWord(s1, UserTree(parent), va / PAGE_SIZE))
    requires FrameOf(LeafWord(s1, UserTree(parent), va / PAGE_SIZE)) == src
    requires Granted(s2, s3, child, va / PAGE_SIZE, pa / PAGE_SIZE, Private(child, va / PAGE_SIZE), UserReadWrite(pa))
    requires Orderly(s3, |spaces|, trapSec)
    ensures Inv(s3, spaces, trapSec, exhausted) && Evolves(s, s3, child, {})
    ensures PageCopied(s0, s3, parent, child, va / PAGE_SIZE)
  {
    hide Inv, Orderly, LeafWord, Valid, FrameOf, LeafEntry, ProtToType, Evolves, Took, Granted, PageCopied;
    EncodedLeaf(pa, READ_WRITE, true);
    PrivateGrantKeepsInv(s, s2, s3, spaces, trapSec, exhausted, child, va / PAGE_SIZE, pa / PAGE_SIZE,
                         UserReadWrite(pa));
    CopyMade(s0, s, s1, s2, s3, parent, child, va, pa, src);
  }

  /** The source computes page addresses of data regions in an int, which is then widened. */
  function ThroughInt(x: nat): nat {
    var y := x % 0x1_0000_0000;
    if y < 0x8000_0000 then y else WORD_LIMIT - 0x1_0000_0000 + y
  }

  /** The detour through int changes nothing exactly below 2 GB and in the topmost 2 GB. */
  lemma ThroughIntIsIdentityIff(x: nat)
    requires x < WORD_LIMIT
    ensures ThroughInt(x) == x <==> x < 0x8000_0000 || x >= WORD_LIMIT - 0x8000_0000
    ensures ThroughInt(x) < WORD_LIMIT
    ensures x % PAGE_SIZE == 0 ==> ThroughInt(x) % PAGE_SIZE == 0
  {
  }

  function DataVa(region: Region, j: nat): nat {
    ThroughInt(Wrap(region.va + PAGE_SIZE * j))
  }

  /** Page v begins below the kernel image, or beyond every frame. */
  predicate BelowImage(v: nat) {
    v * PAGE_SIZE < 0x8000_0000 || v >= PPN_LIMIT
  }

  lemma DataPageBelow(region: Region, j: nat)
    ensures BelowImage(DataVa(region, j) / PAGE_SIZE)
  {
  }

  ghost predicate DataCopied(s0: State, s: State, parent: nat, child: nat, region: Region, k: nat) {
    forall j: nat {:trigger DataVa(region, j)} :: j < k ==>
      PageCopied(s0, s, parent, child, DataVa(region, j) / PAGE_SIZE)
  }

  lemma DataCopiedNext(s0: State, s: State, s': State, spaces: seq<Space>, trapSec: nat, exhausted: bool,
                       parent: nat, child: nat, region: Region, k: nat)
    requires Inv(s, spaces, trapSec, exhausted) && parent < |spaces| && Evolves(s, s', child, {})
    requires DataCopied(s0, s, parent, child, region, k)
    ensures DataCopied(s0, s', parent, child, region, k)
  {
    hide PageCopied, Evolves, SpaceOk, OwnerOk, CodeOk, DataVa, TreesOk, FreeOk, TreesOwned, LeavesOwned;
    assert s.mem.Keys == s.roles.Keys;
    forall j: nat | j < k ensures PageCopied(s0, s', parent, child, DataVa(region, j) / PAGE_SIZE) {
      CopyStays(s0, s, s', |spaces|, trapSec, parent, child, DataVa(region, j) / PAGE_SIZE);
    }
  }

  lemma DataVaAligned(region: Region, j: nat)
    requires region.va % PAGE_SIZE == 0
    ensures DataVa(region, j) % PAGE_SIZE == 0 && DataVa(region, j) < WORD_LIMIT
  {
    var x := Wrap(region.va + PAGE_SIZE * j);
    assert x % PAGE_SIZE == 0;
    ThroughIntIsIdentityIff(x);
  }

  /** The pages at which the first k pages of a data region are copied. */
  function DataPages(region: Region, k: nat): (pages: seq<nat>)
    ensures |pages| == k
  {
    if k == 0 then [] else DataPages(region, k - 1) + [DataVa(region, k - 1) / PAGE_SIZE]
  }

  lemma {:induction false} DataPagesPrefix(region: Region, j: nat, k: nat)
    requires j <= k
    ensures DataPages(region, k) == DataPages(region, j) + DataPages(region, k)[j..]
    decreases k
  {
    if j < k {
      DataPagesPrefix(region, j, k - 1);
    }
  }

  ghost predicate DataFound(s0: State, parent: nat, region: Region, k: nat) {
    forall j: nat {:trigger DataVa(region, j)} :: j < k ==> Found(s0, parent, DataVa(region, j) / PAGE_SIZE)
  }

  /** A data region: every page is copied, if every page is found and there is room for all. */
  method ForkData(mc: Machine, parentRoot: nat, childRoot: nat, region: Region, ghost s0: State,
                  ghost spaces: seq<Space>,
                  ghost trapSec: nat, ghost exhausted: bool, ghost parent: nat, ghost child: nat,
                  ghost pages: seq<nat>, ghost taken: nat)
      returns (r: Outcome)
    requires mc.Valid() && Inv(mc.S(), spaces, trapSec, exhausted) && Evolves(s0, mc.S(), child, {})
    requires parent < |spaces| && child < |spaces| && parent != child && Shaped(s0, mc.S(), child, pages, taken)
    requires parentRoot == spaces[parent].root && childRoot == spaces[child].root && region.va % PAGE_SIZE == 0
    modifies mc
    ensures mc.startAddr == old(mc.startAddr) && mc.endAddr == old(mc.endAddr)
    ensures r.Done? || r.Halted?
    ensures r.Done? <==>
      && DataFound(s0, parent, region, region.npages)
      && Fits(s0, child, pages + DataPages(region, region.npages), taken + region.npages)
    ensures r.Done? ==>
      && mc.Valid() && Inv(mc.S(), spaces, trapSec, exhausted) && Evolves(old(mc.S()), mc.S(), child, {})
      && DataCopied(s0, mc.S(), parent, child, region, region.npages)
      && Shaped(s0, mc.S(), child, pages + DataPages(region, region.npages), taken + region.npages)
  {
    hide Machine.Valid, Inv, Evolves, PageCopied, DataVa, Shaped, Fits, Found, DataPages;
    ghost var s := mc.S();
    NoChange(s, child);
    DataStart(region, pages);
    var j := 0;
    while j < region.npages
      invariant 0 <= j <= region.npages
      invariant mc.startAddr == old(mc.startAddr) && mc.endAddr == old(mc.endAddr)
      invariant mc.Valid() && Inv(mc.S(), spaces, trapSec, exhausted)
      invariant Evolves(s, mc.S(), child, {}) && Evolves(s0, mc.S(), child, {})
      invariant DataCopied(s0, mc.S(), parent, child, region, j) && DataFound(s0, parent, region, j)
      invariant Shaped(s0, mc.S(), child, pages + DataPages(region, j), taken + j)
    {
      ghost var s1 := mc.S();
      DataVaAligned(region, j);
      DataStep(s0, child, region, pages, taken, j);
      r := ForkDataPage(mc, parentRoot, childRoot, DataVa(region, j), s0, spaces, trapSec, exhausted, parent, child,
                        pages + DataPages(region, j), taken + j);
      if !r.Done? { return; }
      EvolvesThen(s, s1, mc.S(), child);
      EvolvesThen(s0, s1, mc.S(), child);
      DataCopiedNext(s0, s1, mc.S(), spaces, trapSec, exhausted, parent, child, region, j);
      j := j + 1;
    }
    ShapedFits(s0, mc.S(), child, pages + DataPages(region, j), taken + j);
    r := Done;
  }

  lemma DataStart(region: Region, pages: seq<nat>)
    ensures pages + DataPages(region, 0) == pages
  {
  }

  lemma DataStep(s0: State, child: nat, region: Region, pages: seq<nat>, taken: nat, j: nat)
    requires j < region.npages
    ensures pages + DataPages(region, j) + [DataVa(region, j) / PAGE_SIZE] == pages + DataPages(region, j + 1)
    ensures Fits(s0, child, pages + DataPages(region, region.npages), taken + region.npages) ==>
      Fits(s0, child, pages + DataPages(region, j + 1), taken + j + 1)
  {
    hide Fits, DataVa;
    var all, some := DataPages(region, region.npages), DataPages(region, j + 1);
    DataPagesPrefix(region, j + 1, region.npages);
    assert pages + all == pages + some + all[j + 1..];
    if Fits(s0, child, pages + all, taken + region.npages) {
      FitsPrefix(s0, child, pages + some, all[j + 1..], taken + j + 1, taken + region.npages);
    }
  }

  lemma NoChange(s: State, pid: nat)
    ensures Evolves(s, s, pid, {})
  {
  }

  // ---- code ----

  function WithRegion(spaces: seq<Space>, pid: nat, region: Region): (r: seq<Space>)
    requires pid < |spaces|
    ensures |r| == |spaces|
  {
    spaces[pid := spaces[pid].(regions := spaces[pid].regions + [region])]
  }

  lemma CodePagesNext(regions: seq<Region>, region: Region)
    ensures CodePages(regions + [region]) ==
      CodePages(regions) + (if region.segment.CodeSegment? then {region.va / PAGE_SIZE} else {})
  {
    var next := regions + [region];
    forall v | v in CodePages(next)
      ensures v in CodePages(regions) + (if region.segment.CodeSegment? then {region.va / PAGE_SIZE} else {})
    {
      var i :| 0 <= i < |next| && next[i].segment.CodeSegment? && next[i].va / PAGE_SIZE == v;
      assert i < |regions| ==> next[i] == regions[i];
    }
    forall v | v in CodePages(regions) ensures v in CodePages(next) {
      var i :| 0 <= i < |regions| && regions[i].segment.CodeSegment? && regions[i].va / PAGE_SIZE == v;
      assert next[i] == regions[i];
    }
    if region.segment.CodeSegment? {
      assert next[|regions|] == region;
    }
  }

  /** A frame that keeps its words and its use did not change. */
  lemma KeptEvolves(s: State, s': State, pid: nat, f: nat)
    requires Evolves(s, s', pid, {f})
    requires (f in s.roles && f in s.mem ==> s'.roles[f] == s.roles[f] && s'.mem[f] == s.mem[f])
    ensures Evolves(s, s', pid, {})
  {
    hide LeavesStay, NodesStay;
  }

  lemma SharedCode(s: State, s': State, spaces: seq<Space>, trapSec: nat, child: nat, parent: nat, region: Region,
                   f: nat, w: nat, pid: nat, u: nat)
    requires LeavesOwned(s, |spaces|, trapSec) && s.mem.Keys == s.roles.Keys && child < |spaces| && pid < |spaces|
    requires CodeOk(s, spaces, pid, u) && (pid > 0 ==> spaces[pid].parent < pid)
    requires Evolves(s, s', child, {}) && LeafChanged(s, s', UserTree(child), region.va / PAGE_SIZE, w)
    requires Valid(w) && FrameOf(w) == f && f in s'.roles && s'.roles[f].Code? && region.segment.CodeSegment?
    requires child > 0 && spaces[child].parent == parent && Leads(s, parent, region.va / PAGE_SIZE, f)
    requires parent != child
    ensures CodeOk(s', WithRegion(spaces, child, region), pid, u)
  {
    hide LeafWord, Valid, FrameOf, Evolves, CodePages, LeavesOwned;
    var v := region.va / PAGE_SIZE;
    CodePagesNext(spaces[child].regions, region);
    assert LeafWord(s', UserTree(pid), u) == if pid == child && u == v then w else LeafWord(s, UserTree(pid), u);
    if pid == child && u == v {
      assert LeafWord(s', UserTree(parent), v) == LeafWord(s, UserTree(parent), v);
    } else {
      CodeStays(s, s', spaces, trapSec, child, pid, u);
    }
  }

  lemma SharedSpace(s: State, s': State, spaces: seq<Space>, child: nat, region: Region, pid: nat)
    requires child < |spaces| && pid < |spaces| && SpaceOk(s, spaces, pid) && Evolves(s, s', child, {})
    requires s.mem.Keys == s.roles.Keys && region.segment.CodeSegment? && region.va % PAGE_SIZE == 0
    requires region.va < WORD_LIMIT
    ensures SpaceOk(s', WithRegion(spaces, child, region), pid)
  {
    hide Evolves;
    SpaceStays(s, s', spaces, pid, child);
  }

  /** Mapping the parent's code frame for the child, and recording it, keeps the invariant. */
  lemma ShareKeepsInv(s: State, s': State, spaces: seq<Space>, trapSec: nat, exhausted: bool, parent: nat, child: nat,
                      region: Region, f: nat, w: nat)
    requires Inv(s, spaces, trapSec, exhausted) && Orderly(s', |spaces|, trapSec)
    requires child < |spaces| && child > 0 && spaces[child].parent == parent && parent != child
    requires region.segment.CodeSegment? && region.va % PAGE_SIZE == 0 && region.va < WORD_LIMIT
    requires Granted(s, s', child, region.va / PAGE_SIZE, f, Code(region.va / PAGE_SIZE), w) && Valid(w)
    requires FrameOf(w) == f
    requires Leads(s, parent, region.va / PAGE_SIZE, f) && f in s.roles && s.roles[f] == Code(region.va / PAGE_SIZE)
    ensures Inv(s', WithRegion(spaces, child, region), trapSec, exhausted) && Evolves(s, s', child, {})
  {
    hide LeafWord, Valid, FrameOf, TreesOk, FreeOk, LeavesOwned, TreesOwned, SpaceOk, CodeOk, LeavesStay, NodesStay,
      LeafChanged, WithRegion;
    var spaces' := WithRegion(spaces, child, region);
    assert s.mem.Keys == s.roles.Keys && f in s.roles.Keys;
    KeptEvolves(s, s', child, f);
    forall pid: nat | pid < |spaces'| ensures SpaceOk(s', spaces', pid) {
      assert SpaceOk(s, spaces, pid);
      SharedSpace(s, s', spaces, child, region, pid);
    }
    forall g | g in s'.roles ensures OwnerOk(s', spaces', exhausted, g) {
      assert g in s.roles.Keys && OwnerOk(s, spaces, exhausted, g);
      SharedOwner(s, s', spaces, child, region, exhausted, f, g);
    }
    forall pid: nat, u: nat | pid < |spaces'| ensures CodeOk(s', spaces', pid, u) {
      assert SpaceOk(s, spaces, pid) && CodeOk(s, spaces, pid, u);
      ParentBelow(s, spaces, pid);
      SharedCode(s, s', spaces, trapSec, child, parent, region, f, w, pid, u);
    }
  }

  lemma SharedOwner(s: State, s': State, spaces: seq<Space>, child: nat, region: Region, exhausted: bool, f: nat,
                    g: nat)
    requires child < |spaces| && RolesKept(s, s', f) && f in s.roles && s'.roles[f] == s.roles[f]
    requires g in s.roles && OwnerOk(s, spaces, exhausted, g)
    ensures g in s'.roles && OwnerOk(s', WithRegion(spaces, child, region), exhausted, g)
  {
    assert g in s'.roles.Keys;
  }

  lemma RecordedCode(s: State, spaces: seq<Space>, trapSec: nat, exhausted: bool, parent: nat, v: nat)
    requires Inv(s, spaces, trapSec, exhausted) && parent < |spaces| && v in CodePages(spaces[parent].regions)
    ensures var f := FrameOf(LeafWord(s, UserTree(parent), v));
      Leads(s, parent, v, f) && f in s.roles && s.roles[f] == Code(v) && 0 < f < PPN_LIMIT && 0 !in s.roles
  {
    hide LeafWord, Valid, FrameOf, TreesOk, FreeOk, TreesOwned, CodePages, Sound;
    assert CodeOk(s, spaces, parent, v) && LeafOk(s, trapSec, parent, v);
    assert s.mem.Keys == s.roles.Keys && FrameOf(LeafWord(s, UserTree(parent), v)) in s.mem.Keys && 0 !in s.mem.Keys;
  }

  lemma CodeMay(s: State, trapSec: nat, pid: nat, v: nat, f: nat)
    requires f in s.roles ==> s.roles[f] == Code(v)
    ensures MayLead(s, trapSec, pid, v, f, Code(v))
  {
  }

  /** A code region: its first page is mapped to the parent's frame, and recorded. */
  method ForkCode(mc: Machine, parentRoot: nat, childRoot: nat, region: Region, ghost s0: State,
                  ghost spaces: seq<Space>,
                  ghost trapSec: nat, ghost exhausted: bool, ghost parent: nat, ghost child: nat,
                  ghost pages: seq<nat>, ghost taken: nat)
      returns (r: Outcome)
    requires mc.Valid() && Inv(mc.S(), spaces, trapSec, exhausted) && Shaped(s0, mc.S(), child, pages, taken)
    requires parent < child < |spaces| && spaces[child].parent == parent
    requires parentRoot == spaces[parent].root && childRoot == spaces[child].root
    requires region.segment.CodeSegment? && region.va % PAGE_SIZE == 0 && region.va < WORD_LIMIT
    requires region.va / PAGE_SIZE in CodePages(spaces[parent].regions)
    modifies mc
    ensures mc.startAddr == old(mc.startAddr) && mc.endAddr == old(mc.endAddr)
    ensures r.Done? || r.Halted?
    ensures r.Done? <==> Fits(s0, child, pages + [region.va / PAGE_SIZE], taken)
    ensures r.Done? ==>
      && mc.Valid() && Inv(mc.S(), WithRegion(spaces, child, region), trapSec, exhausted)
      && Evolves(old(mc.S()), mc.S(), child, {}) && PageShared(mc.S(), parent, child, region.va / PAGE_SIZE)
      && Shaped(s0, mc.S(), child, pages + [region.va / PAGE_SIZE], taken)
  {
    hide Well, Inv, Orderly, Evolves, LeafWord, Valid, FrameOf, Granted, MayLead, LeafEntry, ProtToType, CodePages,
      WithRegion, PageShared, Shaped, Fits, CanMap, TablesAdded, PathOf;
    ghost var s, n, v := mc.S(), |spaces|, region.va / PAGE_SIZE;
    ghost var f := FrameOf(LeafWord(s, UserTree(parent), v));
    InvGives(s, spaces, trapSec, exhausted, parent);
    InvGives(s, spaces, trapSec, exhausted, child);
    RecordedCode(s, spaces, trapSec, exhausted, parent, v);
    OnePage(region.va);
    CodeBelow(s, trapSec, n, parent, v);
    LookupFinds(s, n, trapSec, parent, region.va);
    CanMapNext(s0, s, child, pages, taken, v);
    var pa := LookupPa(mc.mem, parentRoot, region.va);
    AddressOfFrame(f);
    CodeMay(s, trapSec, child, v, pa / PAGE_SIZE);
    r := MapOwned(mc, childRoot * PAGE_SIZE, RoundDown(region.va), PAGE_SIZE, pa, READ_EXEC, true, n, trapSec, child,
                  Code(v));
    if !r.Done? { return Halted; }
    EncodedLeaf(pa, READ_EXEC, true);
    GrantedShape(s0, s, mc.S(), child, pages, taken, v, f, Code(v), LeafEntry(pa, ProtToType(READ_EXEC, true)));
    CodeShared(s, mc.S(), spaces, trapSec, exhausted, parent, child, region, f);
  }

  lemma CodeBelow(s: State, trapSec: nat, n: nat, pid: nat, v: nat)
    requires Orderly(s, n, trapSec) && Valid(LeafWord(s, UserTree(pid), v))
    ensures v < MAXVPN
  {
    hide Well, LeafWord;
    if v >= MAXVPN {
      NoLeafAbove(s, UserTree(pid), v);
      ZeroIsInvalid();
    }
  }

  lemma CodeShared(s: State, s': State, spaces: seq<Space>, trapSec: nat, exhausted: bool, parent: nat, child: nat,
                   region: Region, f: nat)
    requires Inv(s, spaces, trapSec, exhausted) && Orderly(s', |spaces|, trapSec)
    requires child < |spaces| && parent < child && spaces[child].parent == parent
    requires region.segment.CodeSegment? && region.va % PAGE_SIZE == 0 && region.va < WORD_LIMIT
    requires Leads(s, parent, region.va / PAGE_SIZE, f) && f in s.roles && s.roles[f] == Code(region.va / PAGE_SIZE)
    requires f < PPN_LIMIT
    requires Granted(s, s', child, region.va / PAGE_SIZE, f, Code(region.va / PAGE_SIZE),
                     LeafEntry(f * PAGE_SIZE, ProtToType(READ_EXEC, true)))
    ensures Inv(s', WithRegion(spaces, child, region), trapSec, exhausted)
    ensures Evolves(s, s', child, {}) && PageShared(s', parent, child, region.va / PAGE_SIZE)
  {
    hide Inv, Orderly, LeafWord, Valid, FrameOf, LeafEntry, ProtToType, WithRegion, Evolves;
    var v, w := region.va / PAGE_SIZE, LeafEntry(f * PAGE_SIZE, ProtToType(READ_EXEC, true));
    AddressOfFrame(f);
    EncodedLeaf(f * PAGE_SIZE, READ_EXEC, true);
    ShareKeepsInv(s, s', spaces, trapSec, exhausted, parent, child, region, f, w);
    assert LeafWord(s', UserTree(parent), v) == LeafWord(s, UserTree(parent), v);
  }

  // ---- stack and context ----

  /** The words of a frame in use are nobody's business but its owner's. */
  lemma ContentKeepsInv(s: State, spaces: seq<Space>, trapSec: nat, exhausted: bool, f: nat, page: Page)
    requires Inv(s, spaces, trapSec, exhausted) && f in s.roles && s.roles[f].Plain() && |page| == ENTRIES
    ensures Inv(Fill(s, f, page, s.roles[f]), spaces, trapSec, exhausted)
    ensures Well(Fill(s, f, page, s.roles[f])) && SameLeaves(s, Fill(s, f, page, s.roles[f]))
    ensures Fill(s, f, page, s.roles[f]).roles == s.roles
  {
    hide TreesOk, FreeOk, LeavesOwned, LeafWord, Valid, FrameOf;
    var s' := Fill(s, f, page, s.roles[f]);
    assert s'.roles == s.roles;
    FillWell(s, f, page, s.roles[f]);
    FillIsOrderly(s, |spaces|, trapSec, f, page, s.roles[f]);
    forall pid: nat | pid < |spaces| ensures SpaceOk(s', spaces, pid) {
      assert SpaceOk(s, spaces, pid);
    }
    forall g | g in s'.roles ensures OwnerOk(s', spaces, exhausted, g) {
      assert OwnerOk(s, spaces, exhausted, g);
    }
    forall pid: nat, v: nat | pid < |spaces| ensures CodeOk(s', spaces, pid, v) {
      assert CodeOk(s, spaces, pid, v);
      assert LeafWord(s', UserTree(pid), v) == LeafWord(s, UserTree(pid), v);
      assert LeafWord(s', UserTree(spaces[pid].parent), v) == LeafWord(s, UserTree(spaces[pid].parent), v);
    }
  }

  /** The stack page alloc_process gave the child. */
  ghost predicate StackReady(s0: State, s: State, child: nat, us: nat) {
    && LeafWord(s, UserTree(child), STACK_VPN) == UserReadWrite(us * PAGE_SIZE) && us < PPN_LIMIT
    && us in s.mem && us in s.roles && s.roles[us] == Private(child, STACK_VPN)
    && us in s0.roles && s0.roles[us].Free?
  }

  /** Overwriting a frame the child took shows nowhere else. */
  lemma ContentEvolves(s0: State, s: State, child: nat, f: nat, page: Page)
    requires Evolves(s0, s, child, {}) && Well(s) && f in s.roles && s.roles[f].Plain() && |page| == ENTRIES
    requires f in s0.roles ==> s0.roles[f].Free?
    ensures Evolves(s0, Fill(s, f, page, s.roles[f]), child, {})
  {
    hide Well, Evolves;
    FillEvolves(s, f, page, s.roles[f], child);
    EvolvesTrans(s0, s, Fill(s, f, page, s.roles[f]), child, {}, {f});
    EvolvesFresh(s0, Fill(s, f, page, s.roles[f]), child, {} + {f});
  }

  /** Copy the parent's stack page into the child's. */
  method ForkStack(mc: Machine, parentRoot: nat, childRoot: nat, ghost s0: State, ghost spaces: seq<Space>,
                   ghost trapSec: nat, ghost exhausted: bool, ghost parent: nat, ghost child: nat, ghost us: nat)
      returns (r: Outcome)
    requires mc.Valid() && Inv(mc.S(), spaces, trapSec, exhausted) && Evolves(s0, mc.S(), child, {})
    requires parent < child < |spaces|
    requires parentRoot == spaces[parent].root && childRoot == spaces[child].root
    requires StackReady(s0, mc.S(), child, us)
    modifies mc
    ensures mc.startAddr == old(mc.startAddr) && mc.endAddr == old(mc.endAddr)
    ensures r.Done? || r.Halted?
    ensures r.Done? <==> Found(s0, parent, STACK_VPN)
    ensures r.Done? ==> SameLeaves(old(mc.S()), mc.S())
    ensures r.Done? ==>
      && mc.Valid() && Inv(mc.S(), spaces, trapSec, exhausted) && Evolves(s0, mc.S(), child, {})
      && PageCopied(s0, mc.S(), parent, child, STACK_VPN)
      && mc.S() == Fill(old(mc.S()), us, mc.mem[us], Private(child, STACK_VPN))
  {
    hide Inv, Orderly, Evolves, LeafWord, Valid, FrameOf, LeafEntry, ProtToType, PageCopied, TreesOk, FreeOk, Found;
    ghost var s, n := mc.S(), |spaces|;
    StackPage();
    FoundStays(s0, s, parent, child, STACK_VPN);
    InvGives(s, spaces, trapSec, exhausted, parent);
    InvGives(s, spaces, trapSec, exhausted, child);
    LookupFinds(s, n, trapSec, parent, STACK_VPN * PAGE_SIZE);
    LookupFinds(s, n, trapSec, child, STACK_VPN * PAGE_SIZE);
    LookupDecides(s, n, trapSec, parent, STACK_VPN * PAGE_SIZE);
    AddressOfFrame(us);
    EncodedLeaf(us * PAGE_SIZE, READ_WRITE, true);
    AddressOfFrame(FrameOf(LeafWord(s, UserTree(parent), STACK_VPN)));
    var src := LookupPa(mc.mem, parentRoot, STACK_VPN * PAGE_SIZE) / PAGE_SIZE;
    var dst := LookupPa(mc.mem, childRoot, STACK_VPN * PAGE_SIZE) / PAGE_SIZE;
    if src !in mc.mem || dst !in mc.mem { return Halted; }
    mc.mem := mc.mem[dst := mc.mem[src]];
    assert s.roles[us := Private(child, STACK_VPN)] == s.roles;
    ContentKeepsInv(s, spaces, trapSec, exhausted, us, s.mem[src]);
    ContentEvolves(s0, s, child, us, s.mem[src]);
    StackCopied(s0, s, mc.S(), spaces, trapSec, exhausted, parent, child, us, src);
    r := Done;
  }

  lemma StackPage()
    ensures STACK_VPN * PAGE_SIZE / PAGE_SIZE == STACK_VPN && STACK_VPN * PAGE_SIZE < MAXVA
  {
  }

  lemma StackCopied(s0: State, s: State, s': State, spaces: seq<Space>, trapSec: nat, exhausted: bool, parent: nat,
                    child: nat,
                    us: nat, src: nat)
    requires Inv(s, spaces, trapSec, exhausted) && parent < child < |spaces| && StackReady(s0, s, child, us)
    requires src in s.mem && Leads(s, parent, STACK_VPN, src)
    requires SameLeaves(s, s') && s'.roles == s.roles && s'.mem == s.mem[us := s.mem[src]]
    ensures PageCopied(s0, s', parent, child, STACK_VPN)
  {
    hide LeafWord, Valid, FrameOf, LeafEntry, ProtToType, TreesOk, FreeOk, SpaceOk, OwnerOk, CodeOk;
    assert LeafOk(s, trapSec, parent, STACK_VPN);
    AddressOfFrame(us);
    EncodedLeaf(us * PAGE_SIZE, READ_WRITE, true);
    assert LeafWord(s', UserTree(parent), STACK_VPN) == LeafWord(s, UserTree(parent), STACK_VPN);
    assert LeafWord(s', UserTree(child), STACK_VPN) == LeafWord(s, UserTree(child), STACK_VPN);
    assert src in s.roles.Keys;
  }

  /** The child's saved context is the parent's, except for the words in `except`. */
  ghost predicate ContextCopied(s: State, tfParent: nat, tfChild: nat, except: set<nat>) {
    && tfParent in s.mem && tfChild in s.mem && |s.mem[tfParent]| == ENTRIES == |s.mem[tfChild]|
    && (forall i: nat :: i < CONTEXT_WORDS && i !in except ==> s.mem[tfChild][i] == s.mem[tfParent][i])
  }

  function CopyContext(from: Page, to: Page): (p: Page)
    requires |from| == ENTRIES == |to|
    ensures |p| == ENTRIES
  {
    from[..CONTEXT_WORDS] + to[CONTEXT_WORDS..]
  }

  /** A copied page stays copied when a frame of another kind is overwritten. */
  lemma CopyStaysAside(s0: State, s: State, s': State, n: nat, trapSec: nat, parent: nat, child: nat, v: nat, f: nat)
    requires PageCopied(s0, s, parent, child, v) && SameLeaves(s, s') && s'.roles == s.roles
    requires LeavesOwned(s, n, trapSec) && parent < n && parent != child && s.mem.Keys == s.roles.Keys == s'.mem.Keys
    requires f in s.roles && s.roles[f] == Trapframe(child)
    requires forall g :: g in s.mem && g != f ==> s'.mem[g] == s.mem[g]
    ensures PageCopied(s0, s', parent, child, v)
  {
    hide LeafWord, Valid, FrameOf, UserReadWrite, Sound;
    assert LeafOk(s, trapSec, parent, v);
    assert LeafWord(s', UserTree(parent), v) == LeafWord(s, UserTree(parent), v);
    assert LeafWord(s', UserTree(child), v) == LeafWord(s, UserTree(child), v);
    assert FrameOf(LeafWord(s, UserTree(parent), v)) in s.roles.Keys;
    assert FrameOf(LeafWord(s, UserTree(parent), v)) in s'.mem.Keys;
    assert FrameOf(LeafWord(s, UserTree(child), v)) in s'.mem.Keys;
  }

  // ---- all regions ----

  ghost predicate RegionForked(s0: State, s: State, parent: nat, child: nat, region: Region) {
    match region.segment
    case DataSegment => DataCopied(s0, s, parent, child, region, region.npages)
    case CodeSegment => PageShared(s, parent, child, region.va / PAGE_SIZE)
    case _ => true
  }

  /** What the child has of the parent's first i regions. */
  ghost predicate Forked(s0: State, s: State, parent: nat, child: nat, regions: seq<Region>, i: nat)
    requires i <= |regions|
  {
    && (i > 0 ==> PageCopied(s0, s, parent, child, STACK_VPN))
    && (forall k {:trigger regions[k]} :: 3 <= k < i ==> RegionForked(s0, s, parent, child, regions[k]))
  }

  lemma ForkedStays(s0: State, s: State, s': State, spaces: seq<Space>, trapSec: nat, exhausted: bool, parent: nat,
                    child: nat,
                    regions: seq<Region>, i: nat)
    requires Inv(s, spaces, trapSec, exhausted) && parent < |spaces| && Evolves(s, s', child, {}) && i <= |regions|
    requires Forked(s0, s, parent, child, regions, i)
    ensures Forked(s0, s', parent, child, regions, i)
  {
    hide Evolves, PageCopied, PageShared, DataCopied, Inv;
    if i > 0 { CopyStaysInv(s0, s, s', spaces, trapSec, exhausted, parent, child); }
    forall k {:trigger regions[k]} | 3 <= k < i ensures RegionForked(s0, s', parent, child, regions[k]) {
      var region := regions[k];
      if region.segment.DataSegment? {
        DataCopiedNext(s0, s, s', spaces, trapSec, exhausted, parent, child, region, region.npages);
      } else if region.segment.CodeSegment? {
        ShareStays(s, s', parent, child, region.va / PAGE_SIZE);
      }
    }
  }

  lemma CopyStaysInv(s0: State, s: State, s': State, spaces: seq<Space>, trapSec: nat, exhausted: bool, parent: nat,
                     child: nat)
    requires Inv(s, spaces, trapSec, exhausted) && parent < |spaces| && Evolves(s, s', child, {})
    requires PageCopied(s0, s, parent, child, STACK_VPN)
    ensures PageCopied(s0, s', parent, child, STACK_VPN)
  {
    hide Evolves, PageCopied, SpaceOk, OwnerOk, CodeOk, TreesOk, FreeOk, TreesOwned, LeavesOwned;
    assert s.mem.Keys == s.roles.Keys;
    CopyStays(s0, s, s', |spaces|, trapSec, parent, child, STACK_VPN);
  }

  /** The trapframe of the child may be overwritten without harm to what was copied. */
  lemma ForkedAside(s0: State, s: State, page: Page, spaces: seq<Space>, trapSec: nat, exhausted: bool,
                    parent: nat, child: nat, regions: seq<Region>, i: nat)
    requires Inv(s, spaces, trapSec, exhausted) && parent < child < |spaces| && i <= |regions| && |page| == ENTRIES
    requires Forked(s0, s, parent, child, regions, i)
    ensures Forked(s0, Fill(s, spaces[child].trapframe, page, Trapframe(child)), parent, child, regions, i)
  {
    hide PageCopied, PageShared, OwnerOk, CodeOk, TreesOk, FreeOk, TreesOwned, LeavesOwned, LeafWord;
    var tf := spaces[child].trapframe;
    assert SpaceOk(s, spaces, child) && tf in s.roles.Keys;
    assert s.roles[tf := Trapframe(child)] == s.roles;
    var s' := Fill(s, tf, page, Trapframe(child));
    FillWell(s, tf, page, Trapframe(child));
    assert s'.mem.Keys == s.mem.Keys == s.roles.Keys;
    if i > 0 { CopyStaysAside(s0, s, s', |spaces|, trapSec, parent, child, STACK_VPN, tf); }
    forall k {:trigger regions[k]} | 3 <= k < i ensures RegionForked(s0, s', parent, child, regions[k]) {
      var region := regions[k];
      if region.segment.DataSegment? {
        forall j: nat | j < region.npages ensures PageCopied(s0, s', parent, child, DataVa(region, j) / PAGE_SIZE) {
          CopyStaysAside(s0, s, s', |spaces|, trapSec, parent, child, DataVa(region, j) / PAGE_SIZE, tf);
        }
      } else if region.segment.CodeSegment? {
        ShareStaysAside(s, s', parent, child, region.va / PAGE_SIZE);
      }
    }
  }

  lemma ShareStaysAside(s: State, s': State, parent: nat, child: nat, v: nat)
    requires PageShared(s, parent, child, v) && SameLeaves(s, s')
    ensures PageShared(s', parent, child, v)
  {
    hide LeafWord, Valid, FrameOf, LeafEntry, ProtToType;
    assert LeafWord(s', UserTree(parent), v) == LeafWord(s, UserTree(parent), v);
    assert LeafWord(s', UserTree(child), v) == LeafWord(s, UserTree(child), v);
  }

  /** Write the child's saved context. */
  method WriteContext(mc: Machine, tf: nat, page: Page, ghost s0: State, ghost spaces: seq<Space>, ghost trapSec: nat,
                      ghost exhausted: bool, ghost parent: nat, ghost child: nat, ghost regions: seq<Region>,
                      ghost i: nat)
    requires mc.Valid() && Inv(mc.S(), spaces, trapSec, exhausted) && Evolves(s0, mc.S(), child, {})
    requires parent < child < |spaces| && tf == spaces[child].trapframe && |page| == ENTRIES
    requires tf in s0.roles ==> s0.roles[tf].Free?
    requires i <= |regions| && Forked(s0, mc.S(), parent, child, regions, i)
    modifies mc
    ensures mc.Valid() && mc.startAddr == old(mc.startAddr) && mc.endAddr == old(mc.endAddr)
    ensures Inv(mc.S(), spaces, trapSec, exhausted) && Evolves(s0, mc.S(), child, {})
    ensures Forked(s0, mc.S(), parent, child, regions, i) && SameLeaves(old(mc.S()), mc.S())
    ensures mc.mem == old(mc.mem)[tf := page] && mc.roles == old(mc.roles) && tf in old(mc.mem)
    ensures mc.free == old(mc.free) && mc.nodes == old(mc.nodes)
  {
    hide Inv, Evolves, Forked, TreesOk, FreeOk, LeafWord;
    ghost var s := mc.S();
    ContextFrame(s, spaces, trapSec, exhausted, child);
    mc.mem := mc.mem[tf := page];
    ContentKeepsInv(s, spaces, trapSec, exhausted, tf, page);
    ContentEvolves(s0, s, child, tf, page);
    ForkedAside(s0, s, page, spaces, trapSec, exhausted, parent, child, regions, i);
    assert s.roles[tf := Trapframe(child)] == s.roles;
  }

  lemma ContextFrame(s: State, spaces: seq<Space>, trapSec: nat, exhausted: bool, pid: nat)
    requires Inv(s, spaces, trapSec, exhausted) && pid < |spaces|
    ensures spaces[pid].trapframe in s.roles && s.roles[spaces[pid].trapframe] == Trapframe(pid)
    ensures spaces[pid].trapframe in s.mem && |s.mem[spaces[pid].trapframe]| == ENTRIES
    ensures RegionsOk(spaces[pid].regions)
  {
    hide OwnerOk, CodeOk, TreesOk, FreeOk, TreesOwned, LeavesOwned, RegionsOk;
    assert SpaceOk(s, spaces, pid) && spaces[pid].trapframe in s.roles.Keys;
  }

  // ---- what a fork needs ----

  function RegionPages(region: Region): seq<nat> {
    match region.segment
    case DataSegment => DataPages(region, region.npages)
    case CodeSegment => [region.va / PAGE_SIZE]
    case _ => []
  }

  function RegionFrames(region: Region): nat {
    if region.segment.DataSegment? then region.npages else 0
  }

  /** The pages of a child: those of every new process, then those its parent's regions give it. */
  function ChildPages(free: seq<nat>, trapSec: nat, regions: seq<Region>): seq<nat> {
    if regions == [] then FirstPages(free, trapSec) else
    ChildPages(free, trapSec, regions[..|regions| - 1]) + RegionPages(regions[|regions| - 1])
  }

  /** The frames of a child other than tables: five of every new process, and one for each data page. */
  function ChildFrames(regions: seq<Region>): nat {
    if regions == [] then 5 else ChildFrames(regions[..|regions| - 1]) + RegionFrames(regions[|regions| - 1])
  }

  ghost predicate SourceFound(s0: State, parent: nat, region: Region) {
    match region.segment
    case StackSegment => Found(s0, parent, STACK_VPN)
    case DataSegment => DataFound(s0, parent, region, region.npages)
    case _ => true
  }

  ghost predicate AllFound(s0: State, parent: nat, regions: seq<Region>) {
    forall k :: 0 <= k < |regions| ==> SourceFound(s0, parent, regions[k])
  }

  /** The memory for a fork suffices, and every page to copy is there. */
  ghost predicate ForkFits(s0: State, parent: nat, child: nat, trapSec: nat, regions: seq<Region>) {
    && Fits(s0, child, ChildPages(s0.free, trapSec, regions), ChildFrames(regions)) && AllFound(s0, parent, regions)
  }

  lemma ChildNext(free: seq<nat>, trapSec: nat, regions: seq<Region>, i: nat)
    requires i < |regions|
    ensures ChildPages(free, trapSec, regions[..i + 1]) ==
      ChildPages(free, trapSec, regions[..i]) + RegionPages(regions[i])
    ensures ChildFrames(regions[..i + 1]) == ChildFrames(regions[..i]) + RegionFrames(regions[i])
  {
    assert regions[..i + 1][..i] == regions[..i];
  }

  lemma {:induction false} ForkFitsPrefix(s0: State, parent: nat, child: nat, trapSec: nat, regions: seq<Region>,
                                          i: nat)
    requires ForkFits(s0, parent, child, trapSec, regions) && i <= |regions|
    ensures ForkFits(s0, parent, child, trapSec, regions[..i])
    decreases |regions| - i
  {
    hide Fits, ChildPages, ChildFrames, RegionPages, RegionFrames, SourceFound;
    if i == |regions| {
      assert regions[..i] == regions;
    } else {
      ForkFitsPrefix(s0, parent, child, trapSec, regions, i + 1);
      ChildNext(s0.free, trapSec, regions, i);
      FitsPrefix(s0, child, ChildPages(s0.free, trapSec, regions[..i]), RegionPages(regions[i]),
                 ChildFrames(regions[..i]),
                 ChildFrames(regions[..i + 1]));
      forall k | 0 <= k < i ensures SourceFound(s0, parent, regions[..i][k]) {
        assert regions[..i][k] == regions[..i + 1][k];
      }
    }
  }

  lemma AllFoundNext(s0: State, parent: nat, regions: seq<Region>, i: nat)
    requires i < |regions|
    ensures AllFound(s0, parent, regions[..i + 1]) <==>
      AllFound(s0, parent, regions[..i]) && SourceFound(s0, parent, regions[i])
  {
    hide SourceFound;
    var some, more := regions[..i], regions[..i + 1];
    assert more[i] == regions[i];
    if AllFound(s0, parent, more) {
      forall k | 0 <= k < |some| ensures SourceFound(s0, parent, some[k]) { assert some[k] == more[k]; }
    }
    if AllFound(s0, parent, some) && SourceFound(s0, parent, regions[i]) {
      forall k | 0 <= k < |more| ensures SourceFound(s0, parent, more[k]) {
        if k < i { assert more[k] == some[k]; }
      }
    }
  }

  /** How much of the child is there after i regions. */
  ghost predicate Grew(s0: State, s: State, parent: nat, child: nat, trapSec: nat, regions: seq<Region>) {
    && Shaped(s0, s, child, ChildPages(s0.free, trapSec, regions), ChildFrames(regions))
    && AllFound(s0, parent, regions)
  }

  lemma GrewFits(s0: State, s: State, parent: nat, child: nat, trapSec: nat, regions: seq<Region>)
    requires Grew(s0, s, parent, child, trapSec, regions)
    ensures ForkFits(s0, parent, child, trapSec, regions)
  {
    hide Shaped, Fits, ChildPages, ChildFrames, AllFound;
    ShapedFits(s0, s, child, ChildPages(s0.free, trapSec, regions), ChildFrames(regions));
  }

  lemma GrewStays(s0: State, s: State, s': State, parent: nat, child: nat, trapSec: nat, regions: seq<Region>)
    requires Grew(s0, s, parent, child, trapSec, regions)
    requires s'.free == s.free && SameLeaves(s, s') && s'.nodes == s.nodes
    ensures Grew(s0, s', parent, child, trapSec, regions)
  {
    hide Shaped, ChildPages, ChildFrames, AllFound, SameLeaves;
    ShapedStays(s0, s, s', child, ChildPages(s0.free, trapSec, regions), ChildFrames(regions));
  }

  /** The state of do_fork after i regions of the parent. */
  ghost predicate Forking(s0: State, s: State, spaces: seq<Space>, trapSec: nat, exhausted: bool,
                          parent: nat, child: nat, us: nat, i: nat)
  {
    && Inv(s, spaces, trapSec, exhausted) && Evolves(s0, s, child, {})
    && parent < child < |spaces| && spaces[child].parent == parent && i <= |spaces[parent].regions|
    && (spaces[child].trapframe in s0.roles ==> s0.roles[spaces[child].trapframe].Free?)
    && Forked(s0, s, parent, child, spaces[parent].regions, i)
    && (i == 0 ==> StackReady(s0, s, child, us))
    && (i > 1 ==> ContextCopied(s, spaces[parent].trapframe, spaces[child].trapframe, {}))
    && Grew(s0, s, parent, child, trapSec, spaces[parent].regions[..i])
  }

  lemma ContextStays(s: State, s': State, spaces: seq<Space>, trapSec: nat, exhausted: bool, parent: nat, child: nat)
    requires Inv(s, spaces, trapSec, exhausted) && parent < child < |spaces| && Evolves(s, s', child, {})
    requires ContextCopied(s, spaces[parent].trapframe, spaces[child].trapframe, {})
    ensures ContextCopied(s', spaces[parent].trapframe, spaces[child].trapframe, {})
  {
    hide Inv, LeavesStay, NodesStay;
    ContextFrame(s, spaces, trapSec, exhausted, parent);
    ContextFrame(s, spaces, trapSec, exhausted, child);
    assert spaces[parent].trapframe in s'.mem.Keys && spaces[child].trapframe in s'.mem.Keys;
  }

  /** A data or code region, or one that needs nothing, completes the next step of the fork. */
  lemma ForkingNext(s0: State, s: State, s': State, spaces: seq<Space>, spaces': seq<Space>, trapSec: nat,
                    exhausted: bool,
                    parent: nat, child: nat, us: nat, i: nat)
    requires Forking(s0, s, spaces, trapSec, exhausted, parent, child, us, i) && 2 <= i < |spaces[parent].regions|
    requires Inv(s', spaces', trapSec, exhausted) && Evolves(s, s', child, {})
    requires |spaces'| == |spaces| && spaces'[parent] == spaces[parent]
    requires spaces'[child].trapframe == spaces[child].trapframe && spaces'[child].parent == parent
    requires i > 2 ==> RegionForked(s0, s', parent, child, spaces[parent].regions[i])
    requires Grew(s0, s', parent, child, trapSec, spaces[parent].regions[..i + 1])
    ensures Forking(s0, s', spaces', trapSec, exhausted, parent, child, us, i + 1)
  {
    hide Inv, Evolves, PageCopied, RegionForked, ContextCopied, StackReady, Grew;
    EvolvesThen(s0, s, s', child);
    ForkedStays(s0, s, s', spaces, trapSec, exhausted, parent, child, spaces[parent].regions, i);
    ContextStays(s, s', spaces, trapSec, exhausted, parent, child);
  }

  lemma CodeRecorded(regions: seq<Region>, i: nat)
    requires i < |regions| && regions[i].segment.CodeSegment?
    ensures regions[i].va / PAGE_SIZE in CodePages(regions)
  {
  }

  /** One region of the parent. */
  method ForkRegion(mc: Machine, spaces: seq<Space>, parent: nat, child: nat, i: nat, ghost s0: State,
                    ghost trapSec: nat,
                    ghost exhausted: bool, ghost us: nat)
      returns (r: Outcome, spaces': seq<Space>)
    requires mc.Valid() && Forking(s0, mc.S(), spaces, trapSec, exhausted, parent, child, us, i)
    requires i < |spaces[parent].regions|
    modifies mc
    ensures mc.startAddr == old(mc.startAddr) && mc.endAddr == old(mc.endAddr)
    ensures r.Done? || r.Halted?
    ensures r.Done? <==> ForkFits(s0, parent, child, trapSec, spaces[parent].regions[..i + 1])
    ensures r.Done? ==> mc.Valid() && Forking(s0, mc.S(), spaces', trapSec, exhausted, parent, child, us, i + 1)
    ensures spaces' == if spaces[parent].regions[i].segment.CodeSegment? && r.Done?
      then WithRegion(spaces, child, spaces[parent].regions[i]) else spaces
  {
    hide Machine.Valid, Inv, Evolves, PageCopied, PageShared, DataCopied, WithRegion, StackReady, Grew, ForkFits, Fits,
      Shaped, SameLeaves, ChildPages, ChildFrames, DataPages, DataFound, Found;
    spaces' := spaces;
    ghost var s := mc.S();
    var p, c := spaces[parent], spaces[child];
    ghost var regions, region := p.regions, p.regions[i];
    ghost var pages, taken := ChildPages(s0.free, trapSec, regions[..i]), ChildFrames(regions[..i]);
    ContextFrame(s, spaces, trapSec, exhausted, parent);
    ContextFrame(s, spaces, trapSec, exhausted, child);
    GrewParts(s0, s, parent, child, trapSec, regions, i);
    match p.regions[i].segment {
      case ContextSegment =>
        WriteContext(mc, c.trapframe, CopyContext(mc.mem[p.trapframe], mc.mem[c.trapframe]), s0, spaces, trapSec,
                     exhausted,
                     parent, child, p.regions, i);
        PlainGrew(s0, s, mc.S(), parent, child, trapSec, regions, i);
        r := Done;
      case StackSegment =>
        r := ForkStack(mc, p.root, c.root, s0, spaces, trapSec, exhausted, parent, child, us);
        if r.Done? { PlainGrew(s0, s, mc.S(), parent, child, trapSec, regions, i); }
      case DataSegment =>
        r := ForkData(mc, p.root, c.root, p.regions[i], s0, spaces, trapSec, exhausted, parent, child, pages, taken);
        if r.Done? {
          RegionGrew(s0, mc.S(), parent, child, trapSec, regions, i);
          ForkingNext(s0, s, mc.S(), spaces, spaces, trapSec, exhausted, parent, child, us, i);
        }
      case CodeSegment =>
        CodeRecorded(p.regions, i);
        r := ForkCode(mc, p.root, c.root, p.regions[i], s0, spaces, trapSec, exhausted, parent, child, pages, taken);
        if r.Done? {
          RegionGrew(s0, mc.S(), parent, child, trapSec, regions, i);
          spaces' := WithRegion(spaces, child, p.regions[i]);
          WithRegionFacts(spaces, child, p.regions[i]);
          ForkingNext(s0, s, mc.S(), spaces, spaces', trapSec, exhausted, parent, child, us, i);
        }
      case SystemSegment =>
        NoChange(s, child);
        SameAsBefore(s);
        PlainGrew(s0, s, s, parent, child, trapSec, regions, i);
        ForkingNext(s0, s, s, spaces, spaces, trapSec, exhausted, parent, child, us, i);
        r := Done;
    }
  }

  lemma SameAsBefore(s: State)
    ensures SameLeaves(s, s)
  {
  }

  /** What the next region asks for. */
  lemma GrewParts(s0: State, s: State, parent: nat, child: nat, trapSec: nat, regions: seq<Region>, i: nat)
    requires i < |regions| && Grew(s0, s, parent, child, trapSec, regions[..i])
    ensures Shaped(s0, s, child, ChildPages(s0.free, trapSec, regions[..i]), ChildFrames(regions[..i]))
    ensures var pages, taken := ChildPages(s0.free, trapSec, regions[..i]), ChildFrames(regions[..i]);
      ForkFits(s0, parent, child, trapSec, regions[..i + 1]) <==>
      && Fits(s0, child, pages + RegionPages(regions[i]), taken + RegionFrames(regions[i]))
      && SourceFound(s0, parent, regions[i])
  {
    hide Shaped, Fits, ChildPages, ChildFrames, AllFound, SourceFound, RegionPages, RegionFrames;
    ChildNext(s0.free, trapSec, regions, i);
    AllFoundNext(s0, parent, regions, i);
  }

  lemma RegionGrew(s0: State, s': State, parent: nat, child: nat, trapSec: nat, regions: seq<Region>, i: nat)
    requires i < |regions| && ForkFits(s0, parent, child, trapSec, regions[..i + 1])
    requires Shaped(s0, s', child, ChildPages(s0.free, trapSec, regions[..i]) + RegionPages(regions[i]),
                    ChildFrames(regions[..i]) + RegionFrames(regions[i]))
    ensures Grew(s0, s', parent, child, trapSec, regions[..i + 1])
  {
    hide Shaped, Fits, ChildPages, ChildFrames, AllFound, RegionPages, RegionFrames;
    ChildNext(s0.free, trapSec, regions, i);
  }

  /** A region that gives the child no page. */
  lemma PlainGrew(s0: State, s: State, s': State, parent: nat, child: nat, trapSec: nat, regions: seq<Region>, i: nat)
    requires i < |regions| && Grew(s0, s, parent, child, trapSec, regions[..i]) && RegionPages(regions[i]) == []
    requires RegionFrames(regions[i]) == 0 && SourceFound(s0, parent, regions[i])
    requires s'.free == s.free && SameLeaves(s, s') && s'.nodes == s.nodes
    ensures Grew(s0, s', parent, child, trapSec, regions[..i + 1])
    ensures ForkFits(s0, parent, child, trapSec, regions[..i + 1])
  {
    hide Shaped, Fits, ChildPages, ChildFrames, SourceFound, RegionPages, RegionFrames, SameLeaves;
    ChildNext(s0.free, trapSec, regions, i);
    AllFoundNext(s0, parent, regions, i);
    assert ChildPages(s0.free, trapSec, regions[..i]) + [] == ChildPages(s0.free, trapSec, regions[..i]);
    ShapedStays(s0, s, s', child, ChildPages(s0.free, trapSec, regions[..i]), ChildFrames(regions[..i]));
    GrewFits(s0, s', parent, child, trapSec, regions[..i + 1]);
  }

  lemma WithRegionFacts(spaces: seq<Space>, child: nat, region: Region)
    requires child < |spaces|
    ensures var r := WithRegion(spaces, child, region);
      && r[child] == spaces[child].(regions := spaces[child].regions + [region])
      && (forall pid :: 0 <= pid < |spaces| && pid != child ==> r[pid] == spaces[pid])
  {
  }

  /** The code regions of a table, in order. */
  function CodeRegions(regions: seq<Region>): seq<Region> {
    if regions == [] then [] else
    CodeRegions(regions[..|regions| - 1]) +
    if regions[|regions| - 1].segment.CodeSegment? then [regions[|regions| - 1]] else []
  }

  /** The process table with more regions recorded for one process. */
  function Recorded(start: seq<Space>, pid: nat, more: seq<Region>): (r: seq<Space>)
    requires pid < |start|
    ensures |r| == |start|
  {
    start[pid := start[pid].(regions := start[pid].regions + more)]
  }

  lemma RecordedNext(start: seq<Space>, pid: nat, regions: seq<Region>, i: nat)
    requires pid < |start| && i < |regions|
    ensures Recorded(start, pid, CodeRegions(regions[..0])) == start
    ensures Recorded(start, pid, CodeRegions(regions[..i + 1])) ==
      if regions[i].segment.CodeSegment? then
        WithRegion(Recorded(start, pid, CodeRegions(regions[..i])), pid, regions[i])
      else Recorded(start, pid, CodeRegions(regions[..i]))
  {
    assert start[pid].regions + [] == start[pid].regions;
    assert regions[..i + 1][..i] == regions[..i];
    var more := CodeRegions(regions[..i]);
    assert start[pid].regions + (more + [regions[i]]) == start[pid].regions + more + [regions[i]];
    assert more + [] == more;
  }

  /** All regions of the parent, in the order of its table. */
  method ForkRegions(mc: Machine, start: seq<Space>, parent: nat, child: nat, ghost s0: State, ghost trapSec: nat,
                     ghost exhausted: bool, ghost us: nat)
      returns (r: Outcome, spaces: seq<Space>)
    requires mc.Valid() && Forking(s0, mc.S(), start, trapSec, exhausted, parent, child, us, 0)
    modifies mc
    ensures mc.startAddr == old(mc.startAddr) && mc.endAddr == old(mc.endAddr)
    ensures r.Done? || r.Halted?
    ensures r.Done? <==> ForkFits(s0, parent, child, trapSec, start[parent].regions)
    ensures r.Done? ==>
      && mc.Valid() && Forking(s0, mc.S(), spaces, trapSec, exhausted, parent, child, us, |start[parent].regions|)
      && spaces == Recorded(start, child, CodeRegions(start[parent].regions))
  {
    hide Machine.Valid, Forked, Inv, Evolves, StackReady, ContextCopied, WithRegion, Grew, ForkFits;
    spaces := start;
    var regions := start[parent].regions;
    ContextFrame(mc.S(), start, trapSec, exhausted, parent);
    RecordedNext(start, child, regions, 0);
    var i := 0;
    while i < |regions|
      invariant 0 <= i <= |regions| && mc.startAddr == old(mc.startAddr) && mc.endAddr == old(mc.endAddr)
      invariant spaces == Recorded(start, child, CodeRegions(regions[..i])) && spaces[parent].regions == regions
      invariant mc.Valid() && Forking(s0, mc.S(), spaces, trapSec, exhausted, parent, child, us, i)
    {
      RecordedNext(start, child, regions, i);
      r, spaces := ForkRegion(mc, spaces, parent, child, i, s0, trapSec, exhausted, us);
      if !r.Done? {
        if ForkFits(s0, parent, child, trapSec, regions) { ForkFitsPrefix(s0, parent, child, trapSec, regions, i + 1); }
        return;
      }
      i := i + 1;
    }
    assert regions[..i] == regions;
    GrewFits(s0, mc.S(), parent, child, trapSec, regions);
    r := Done;
  }

  /** The stack and the recorded data are copied, the recorded code is shared. */
  ghost predicate PagesForked(s0: State, s: State, parent: nat, child: nat, regions: seq<Region>) {
    && PageCopied(s0, s, parent, child, STACK_VPN)
    && (forall k {:trigger regions[k]} :: 3 <= k < |regions| ==> RegionForked(s0, s, parent, child, regions[k]))
  }

  /** What a completed fork means: the pages are there, and the context is the same except a0. */
  ghost predicate ForkDone(s0: State, s: State, spaces: seq<Space>, parent: nat, child: nat)
    requires parent < |spaces| && child < |spaces|
  {
    && Evolves(s0, s, child, {})
    && PagesForked(s0, s, parent, child, spaces[parent].regions)
    && ContextCopied(s, spaces[parent].trapframe, spaces[child].trapframe, {A0_WORD})
    && s.mem[spaces[child].trapframe][A0_WORD] == 0
  }

  /** child->trapframe->regs.a0 = 0. */
  method ClearA0(mc: Machine, spaces: seq<Space>, ghost parent: nat, child: nat, ghost s0: State, ghost trapSec: nat,
                 ghost exhausted: bool, ghost us: nat)
    requires mc.Valid() && parent < |spaces|
    requires Forking(s0, mc.S(), spaces, trapSec, exhausted, parent, child, us, |spaces[parent].regions|)
    modifies mc
    ensures mc.Valid() && mc.startAddr == old(mc.startAddr) && mc.endAddr == old(mc.endAddr)
    ensures Inv(mc.S(), spaces, trapSec, exhausted) && ForkDone(s0, mc.S(), spaces, parent, child)
    ensures Grew(s0, mc.S(), parent, child, trapSec, spaces[parent].regions)
  {
    hide Machine.Valid, Inv, Evolves, PageCopied, RegionForked, StackReady, Grew, SameLeaves;
    ghost var s := mc.S();
    assert spaces[parent].regions[..|spaces[parent].regions|] == spaces[parent].regions;
    var tf := spaces[child].trapframe;
    ContextFrame(s, spaces, trapSec, exhausted, parent);
    ContextFrame(s, spaces, trapSec, exhausted, child);
    WriteContext(mc, tf, Put(mc.mem[tf], A0_WORD, 0), s0, spaces, trapSec, exhausted, parent, child,
                 spaces[parent].regions, |spaces[parent].regions|);
    GrewStays(s0, s, mc.S(), parent, child, trapSec, spaces[parent].regions);
  }

  /** The process alloc_process made is ready to receive the parent's memory. */
  lemma BornIsForking(s0: State, s: State, spaces: seq<Space>, child: Space, trapSec: nat, exhausted: bool, parent: nat,
                      us: nat)
    requires Inv(s, spaces + [child], trapSec, exhausted) && Born(s0, s, spaces, child, trapSec, us)
    requires parent < |spaces| && child.parent == parent && Shaped(s0, s, |spaces|, FirstPages(s0.free, trapSec), 5)
    ensures Forking(s0, s, spaces + [child], trapSec, exhausted, parent, |spaces|, us, 0)
  {
    hide Shaped, Inv, RegionsOk, LeafWord, LeafEntry, ProtToType, CodePages, LeavesStay, NodesStay, FramesStay;
    var n := |spaces|;
    assert LeafWord(s, UserTree(n), STACK_VPN) == NewLeaf(child.trapframe, us, trapSec, STACK_VPN);
  }
}
