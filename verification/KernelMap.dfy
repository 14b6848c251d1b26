/**
 The kernel's own map (kernel/vmm.c), and the exact number of table frames that mapping a
 range consumes.
 */
module KernelMap {
  import opened Words
  import opened Sv39
  import opened Layout
  import opened Pmm
  import opened Vmm
  import opened Hardware

  // ---- how many tables a range needs ----

  lemma {:induction false} TablesForMembers(t: Tree, lo: nat, n: nat, id: NodeId)
    requires n > 0
    ensures id in TablesFor(t, lo, n) <==>
      && id.tree == t
      && ((id.level == 0 && lo / 512 <= id.k <= (lo + n - 1) / 512)
          || (id.level == 1 && lo / 262144 <= id.k <= (lo + n - 1) / 262144))
  {
    if n > 1 {
      TablesForMembers(t, lo, n - 1, id);
    }
  }

  /** The number of 2 MB regions plus the number of 1 GB regions that n pages from lo touch. */
  function RegionsTouched(lo: nat, n: nat): nat
    requires n > 0
  {
    ((lo + n - 1) / 512 - lo / 512 + 1) + ((lo + n - 1) / 262144 - lo / 262144 + 1)
  }

  lemma {:induction false} TableCount(t: Tree, lo: nat, n: nat)
    requires n > 0
    ensures |TablesFor(t, lo, n)| == RegionsTouched(lo, n)
  {
    hide TablesFor, RegionsTouched;
    var v := lo + n - 1;
    var low, mid := NodeId(t, 0, v / 512), NodeId(t, 1, v / 262144);
    TablesForNext(t, lo, n - 1);
    AddTwo(TablesFor(t, lo, n - 1), mid, low);
    RegionsNext(lo, n);
    if n > 1 {
      TableCount(t, lo, n - 1);
      NewMembers(t, lo, n);
    }
  }

  lemma NewMembers(t: Tree, lo: nat, n: nat)
    requires n > 1
    ensures var v := lo + n - 1;
      && (NodeId(t, 0, v / 512) in TablesFor(t, lo, n - 1) <==> v / 512 == (v - 1) / 512)
      && (NodeId(t, 1, v / 262144) in TablesFor(t, lo, n - 1) <==> v / 262144 == (v - 1) / 262144)
  {
    hide TablesFor;
    var v := lo + n - 1;
    TablesForMembers(t, lo, n - 1, NodeId(t, 0, v / 512));
    TablesForMembers(t, lo, n - 1, NodeId(t, 1, v / 262144));
    NextRegion(v, 512);
    NextRegion(v, 262144);
  }

  lemma RegionsNext(lo: nat, n: nat)
    requires n > 0
    ensures n == 1 ==> RegionsTouched(lo, n) == 2
    ensures n > 1 ==> var v := lo + n - 1;
      RegionsTouched(lo, n) == RegionsTouched(lo, n - 1)
        + (if v / 512 == (v - 1) / 512 then 0 else 1) + (if v / 262144 == (v - 1) / 262144 then 0 else 1)
  {
    if n > 1 {
      NextRegion(lo + n - 1, 512);
      NextRegion(lo + n - 1, 262144);
    }
  }

  lemma TablesForNext(t: Tree, lo: nat, n: nat)
    ensures TablesFor(t, lo, 0) == {}
    ensures TablesFor(t, lo, n + 1) == TablesFor(t, lo, n) + PathOf(t, lo + n)
  {
  }

  lemma AddOne(s: set<NodeId>, a: NodeId)
    ensures |s + {a}| == |s| + (if a in s then 0 else 1)
  {
    if a in s { assert s + {a} == s; }
  }

  lemma AddTwo(s: set<NodeId>, a: NodeId, b: NodeId)
    requires a != b
    ensures |s + {a, b}| == |s| + (if a in s then 0 else 1) + (if b in s then 0 else 1)
  {
    assert s + {a, b} == (s + {a}) + {b};
    AddOne(s, a);
    AddOne(s + {a}, b);
  }

  lemma NextRegion(v: nat, size: nat)
    requires v > 0 && (size == 512 || size == 262144)
    ensures v / size == (v - 1) / size || v / size == (v - 1) / size + 1
  {
  }

  lemma {:induction false} TablesForConcat(t: Tree, lo: nat, n: nat, m: nat)
    ensures TablesFor(t, lo, n) + TablesFor(t, lo + n, m) == TablesFor(t, lo, n + m)
    decreases m
  {
    if m > 0 {
      TablesForConcat(t, lo, n, m - 1);
      assert lo + n + m - 1 == lo + (n + m) - 1;
    }
  }

  /**
   Mapping consumes exactly the missing tables, at most one for each 2 MB region and one
   for each 1 GB region touched, and the list gives up its first frames for them.
   */
  lemma TableFrameBound(s: State, s': State, t: Tree, lo: nat, n: nat, pa: nat, perm: nat, added: set<NodeId>)
    requires n > 0 && added == Missing(s, t, lo, n) && RangeMapped(s, s', t, lo, n, pa, perm, added)
    ensures |s.free| - |s'.free| == |Missing(s, t, lo, n)| <= RegionsTouched(lo, n)
  {
    hide LeavesSet, PlainKept, NodesAdded;
    TableCount(t, lo, n);
    SubsetSize(Missing(s, t, lo, n), TablesFor(t, lo, n));
  }

  /** With a frame for each region touched, mapping unmapped pages below MAXVA succeeds. */
  lemma EnoughFrames(s: State, t: Tree, lo: nat, n: nat)
    requires n > 0 && lo + n <= MAXVPN && NoneMapped(s, t, lo, n) && RegionsTouched(lo, n) <= |s.free|
    ensures CanMap(s, t, lo, n)
  {
    TableCount(t, lo, n);
    SubsetSize(Missing(s, t, lo, n), TablesFor(t, lo, n));
  }

  // ---- building the map ----

  /** `s'` is `s` with the first free frame turned into the directory of a new, empty tree. */
  ghost predicate NewTree(s: State, s': State, t: Tree) {
    && SameLeaves(s, s') && PlainKept(s, s') && TablesAdded(s, s', {Root(t)})
    && Bare(s', t)
  }

  /** A tree that is only a directory. */
  ghost predicate Bare(s: State, t: Tree) {
    && (forall v: nat :: LeafWord(s, t, v) == 0)
    && (forall id :: id in s.nodes && id.tree == t ==> id == Root(t))
  }

  /** Take a page and clear it, as the empty directory of a tree. */
  method NewDirectory(mc: Machine, ghost t: Tree) returns (root: nat)
    requires mc.Valid() && Root(t) !in mc.nodes
    modifies mc
    ensures mc.Valid() && mc.startAddr == old(mc.startAddr) && mc.endAddr == old(mc.endAddr)
    ensures root == 0 <==> old(mc.free) == []
    ensures root == 0 ==> mc.S() == old(mc.S())
    ensures root != 0 ==> NewTree(old(mc.S()), mc.S(), t)
    ensures root != 0 ==> Root(t) in mc.nodes && root == mc.nodes[Root(t)] * PAGE_SIZE
  {
    hide TreesOk, FreeOk, NewTree;
    ghost var s0 := mc.S();
    root := mc.AllocPage();
    if root != 0 {
      ghost var s := mc.S();
      var f := root / PAGE_SIZE;
      mc.mem := mc.mem[f := Zeros()];
      mc.roles, mc.nodes := mc.roles[f := Table(Root(t))], mc.nodes[Root(t) := f];
      PlantRootWell(s, f, t);
      DirectoryKeeps(s0, t);
    }
  }

  lemma DirectoryKeeps(s: State, t: Tree)
    requires Well(s) && s.free != [] && Root(t) !in s.nodes
    ensures NewTree(s, PlantRoot(Take(s, Taken), s.free[0], t), t)
  {
    hide TreesOk, FreeOk, LeafWord, PlainKept;
    var s1 := Take(s, Taken);
    var s' := PlantRoot(s1, s.free[0], t);
    TakeWell(s, Taken);
    PlantRootKeeps(s1, s.free[0], t);
    SameLeavesTrans(s, s1, s');
    OnlyRoot(s, t, s.free[0]);
    FirstFree(s);
    DirectoryFrames(s, t);
    assert {Root(t)} !! s.nodes.Keys;
  }

  lemma OnlyRoot(s: State, t: Tree, f: nat)
    requires Well(s) && Root(t) !in s.nodes
    ensures forall id :: id in s.nodes[Root(t) := f] && id.tree == t ==> id == Root(t)
  {
    hide Well;
    forall id | id in s.nodes ensures id.tree != t {
      RootAbove(s, id);
    }
  }

  lemma DirectoryFrames(s: State, t: Tree)
    requires Well(s) && s.free != []
    ensures PlainKept(s, PlantRoot(Take(s, Taken), s.free[0], t))
  {
    hide TreesOk, LeafWord;
    FirstFree(s);
  }

  lemma FirstFree(s: State)
    requires Well(s) && s.free != []
    ensures s.free[0] in s.roles && s.roles[s.free[0]].Free?
  {
    assert s.free[0] in s.free;
  }

  const KERN_VPN: nat := KERN_BASE / PAGE_SIZE
  const TOP_VPN: nat := PHYS_TOP / PAGE_SIZE

  function KernelText(): nat { ProtToType(PROT_READ + PROT_EXEC, false) }
  function KernelData(): nat { ProtToType(PROT_READ + PROT_WRITE, false) }

  /** Text pages read-execute, the rest of memory read-write, each page at its own address, nothing else. */
  function IdentityLeaf(etext: nat, v: nat): nat {
    if KERN_VPN <= v < etext / PAGE_SIZE then LeafEntry(v * PAGE_SIZE, KernelText())
    else if etext / PAGE_SIZE <= v < TOP_VPN then LeafEntry(v * PAGE_SIZE, KernelData())
    else 0
  }

  /** Frames the kernel map takes: its directory, one middle table and 64 leaf tables. */
  const KERNEL_MAP_FRAMES: nat := 66

  lemma PagesOfRange(lo: nat, n: nat)
    requires 0 < lo && (lo + n) * PAGE_SIZE < WORD_LIMIT
    ensures PageCount(lo * PAGE_SIZE, n * PAGE_SIZE) == n && lo * PAGE_SIZE / PAGE_SIZE == lo
  {
    if n > 0 {
      assert lo * PAGE_SIZE + n * PAGE_SIZE - 1 == (lo + n - 1) * PAGE_SIZE + (PAGE_SIZE - 1);
    }
  }

  lemma AllKernelTables()
    ensures |TablesFor(KernelTree, KERN_VPN, TOP_VPN - KERN_VPN)| == KERNEL_MAP_FRAMES - 1
  {
    TableCount(KernelTree, KERN_VPN, TOP_VPN - KERN_VPN);
  }

  lemma {:induction false} BelowDirectory(t: Tree, lo: nat, n: nat)
    ensures forall id :: id in TablesFor(t, lo, n) ==> id.tree == t && id.level < 2
  {
    if n > 0 { BelowDirectory(t, lo, n - 1); }
  }

  lemma TextNeeds(s: State, n: nat)
    requires Bare(s, KernelTree) && n <= TOP_VPN - KERN_VPN
    ensures Missing(s, KernelTree, KERN_VPN, n) == TablesFor(KernelTree, KERN_VPN, n)
    ensures CanMap(s, KernelTree, KERN_VPN, n) <==> |TablesFor(KernelTree, KERN_VPN, n)| <= |s.free|
    ensures |TablesFor(KernelTree, KERN_VPN, n)| < KERNEL_MAP_FRAMES
  {
    hide TablesFor;
    BareMissesAll(s, KernelTree, KERN_VPN, n);
    TablesForGrows(KernelTree, KERN_VPN, n, TOP_VPN - KERN_VPN);
    SubsetSize(TablesFor(KernelTree, KERN_VPN, n), TablesFor(KernelTree, KERN_VPN, TOP_VPN - KERN_VPN));
    AllKernelTables();
    forall v: nat ensures !Mapped(s, KernelTree, v) {
      assert LeafWord(s, KernelTree, v) == 0;
    }
  }

  lemma BareMissesAll(s: State, t: Tree, lo: nat, n: nat)
    requires Bare(s, t)
    ensures TablesFor(t, lo, n) !! s.nodes.Keys
  {
    hide TablesFor;
    BelowDirectory(t, lo, n);
  }

  lemma DataTables(keys: set<NodeId>, n1: nat, n2: nat)
    requires n1 + n2 == TOP_VPN - KERN_VPN
    requires TablesFor(KernelTree, KERN_VPN, n1) !! keys && TablesFor(KernelTree, KERN_VPN + n1, n2) !! keys
    ensures var a, b := TablesFor(KernelTree, KERN_VPN, n1), TablesFor(KernelTree, KERN_VPN + n1, n2);
      |a| + |b - (keys + a)| == KERNEL_MAP_FRAMES - 1
  {
    hide TablesFor;
    SplitTables(keys, TablesFor(KernelTree, KERN_VPN, n1), TablesFor(KernelTree, KERN_VPN + n1, n2));
    TablesForConcat(KernelTree, KERN_VPN, n1, n2);
    AllKernelTables();
  }

  lemma MissingFrom(s: State, lo: nat, n: nat, keys: set<NodeId>)
    requires s.nodes.Keys == keys
    ensures Missing(s, KernelTree, lo, n) == TablesFor(KernelTree, lo, n) - keys
  {
    hide TablesFor;
  }

  lemma DataMissing(s1: State, s2: State, n1: nat, n2: nat)
    requires Bare(s1, KernelTree) && n1 + n2 == TOP_VPN - KERN_VPN
    requires s2.nodes.Keys == s1.nodes.Keys + TablesFor(KernelTree, KERN_VPN, n1)
    ensures |TablesFor(KernelTree, KERN_VPN, n1)| + |Missing(s2, KernelTree, KERN_VPN + n1, n2)| ==
      KERNEL_MAP_FRAMES - 1
  {
    hide TablesFor, Bare, Missing;
    BareDataTables(s1, n1, n2);
    MissingFrom(s2, KERN_VPN + n1, n2, s1.nodes.Keys + TablesFor(KernelTree, KERN_VPN, n1));
  }

  lemma BareDataTables(s: State, n1: nat, n2: nat)
    requires Bare(s, KernelTree) && n1 + n2 == TOP_VPN - KERN_VPN
    ensures var a, b := TablesFor(KernelTree, KERN_VPN, n1), TablesFor(KernelTree, KERN_VPN + n1, n2);
      |a| + |b - (s.nodes.Keys + a)| == KERNEL_MAP_FRAMES - 1
  {
    hide TablesFor, Bare;
    BareMissesAll(s, KernelTree, KERN_VPN, n1);
    BareMissesAll(s, KernelTree, KERN_VPN + n1, n2);
    DataTables(s.nodes.Keys, n1, n2);
  }

  lemma DataNeeds(s1: State, s2: State, n1: nat, n2: nat, pa: nat, perm: nat, a: set<NodeId>)
    requires Bare(s1, KernelTree) && n1 + n2 == TOP_VPN - KERN_VPN
    requires RangeMapped(s1, s2, KernelTree, KERN_VPN, n1, pa, perm, a) && a == TablesFor(KernelTree, KERN_VPN, n1)
    ensures |a| + |Missing(s2, KernelTree, KERN_VPN + n1, n2)| == KERNEL_MAP_FRAMES - 1
    ensures CanMap(s2, KernelTree, KERN_VPN + n1, n2) <==> KERNEL_MAP_FRAMES - 1 <= |s1.free|
  {
    hide TablesFor, LeavesSet, PlainKept, Missing;
    DataMissing(s1, s2, n1, n2);
    forall v: nat | KERN_VPN + n1 <= v ensures !Mapped(s2, KernelTree, v) {
      SameOutside(s1, s2, KernelTree, KERN_VPN, n1, pa, perm, v);
      assert LeafWord(s1, KernelTree, v) == 0;
    }
  }

  lemma SplitTables(keys: set<NodeId>, a: set<NodeId>, b: set<NodeId>)
    requires a !! keys && b !! keys
    ensures |a| + |b - (keys + a)| == |a + b|
  {
    assert a + b == a + (b - (keys + a));
    DisjointSizes(a, b - (keys + a));
  }

  /** Two adjacent identity ranges over an empty tree. */
  lemma IdentityFollows(s1: State, s2: State, s3: State, etext: nat, n1: nat, n2: nat)
    requires Bare(s1, KernelTree) && KERN_BASE <= etext <= PHYS_TOP && etext % PAGE_SIZE == 0
    requires n1 == etext / PAGE_SIZE - KERN_VPN && n2 == TOP_VPN - etext / PAGE_SIZE
    requires LeavesSet(s1, s2, KernelTree, KERN_VPN, n1, DRAM_BASE, KernelText())
    requires LeavesSet(s2, s3, KernelTree, KERN_VPN + n1, n2, etext, KernelData())
    ensures forall v: nat :: LeafWord(s3, KernelTree, v) == IdentityLeaf(etext, v)
    ensures forall t, v: nat :: t != KernelTree ==> LeafWord(s3, t, v) == LeafWord(s1, t, v)
  {
    hide LeafWord, LeafEntry, ProtToType;
    forall v: nat ensures LeafWord(s3, KernelTree, v) == IdentityLeaf(etext, v) {
      assert LeafWord(s1, KernelTree, v) == 0;
      assert LeafWord(s2, KernelTree, v) == LeafWord(s2, KernelTree, v);
      if KERN_VPN <= v < TOP_VPN {
        SelfAddress(v, KERN_VPN);
        SelfAddress(v, KERN_VPN + n1);
      }
    }
    forall t, v: nat | t != KernelTree ensures LeafWord(s3, t, v) == LeafWord(s1, t, v) {
      assert LeafWord(s2, t, v) == LeafWord(s1, t, v);
    }
  }

  lemma SelfAddress(v: nat, lo: nat)
    requires v < TOP_VPN
    ensures lo <= v ==> Wrap(lo * PAGE_SIZE + PAGE_SIZE * (v - lo)) == v * PAGE_SIZE
  {
  }

  /** New tables belong to the kernel's tree. */
  ghost predicate OnlyKernelNodes(s: State, s': State) {
    forall id :: id in s'.nodes ==> id in s.nodes || id.tree == KernelTree
  }

  lemma OnlyKernelAdded(s0: State, s1: State, s2: State, s3: State, a: set<NodeId>, b: set<NodeId>)
    requires s1.nodes.Keys == s0.nodes.Keys + {Root(KernelTree)} && NodesAdded(s1.nodes, s2.nodes, a)
    requires NodesAdded(s2.nodes, s3.nodes, b) && forall id :: id in a || id in b ==> id.tree == KernelTree
    ensures OnlyKernelNodes(s0, s3)
  {
    forall id | id in s3.nodes ensures id in s0.nodes || id.tree == KernelTree {
      assert id in s3.nodes.Keys;
      assert id in s2.nodes.Keys ==> id in s1.nodes.Keys || id in a;
      assert id in s1.nodes.Keys ==> id in s0.nodes.Keys || id == Root(KernelTree);
    }
  }

  lemma FramesGiven(q0: seq<nat>, q1: seq<nat>, q2: seq<nat>, q3: seq<nat>, a: set<NodeId>, b: set<NodeId>)
    requires ListDropped(q0, q1, |{Root(KernelTree)}|) && ListDropped(q1, q2, |a|) && ListDropped(q2, q3, |b|)
    requires |a| + |b| == KERNEL_MAP_FRAMES - 1
    ensures ListDropped(q0, q3, KERNEL_MAP_FRAMES)
  {
    hide ListDropped;
    DropDrop(q0, q1, q2, 1, |a|);
    DropDrop(q0, q2, q3, 1 + |a|, |b|);
  }

  lemma KernelMapDone(s0: State, s1: State, s2: State, s3: State, etext: nat, n1: nat, n2: nat,
                      a: set<NodeId>, b: set<NodeId>)
    requires KERN_BASE <= etext <= PHYS_TOP && etext % PAGE_SIZE == 0
    requires n1 == etext / PAGE_SIZE - KERN_VPN && n2 == TOP_VPN - etext / PAGE_SIZE
    requires NewTree(s0, s1, KernelTree)
    requires RangeMapped(s1, s2, KernelTree, KERN_VPN, n1, DRAM_BASE, KernelText(), a)
    requires RangeMapped(s2, s3, KernelTree, KERN_VPN + n1, n2, etext, KernelData(), b)
    requires |a| + |b| == KERNEL_MAP_FRAMES - 1
    ensures forall v: nat :: LeafWord(s3, KernelTree, v) == IdentityLeaf(etext, v)
    ensures forall t, v: nat :: t != KernelTree ==> LeafWord(s3, t, v) == LeafWord(s0, t, v)
    ensures PlainKept(s0, s3) && ListDropped(s0.free, s3.free, KERNEL_MAP_FRAMES)
    ensures Root(KernelTree) in s3.nodes && s3.nodes[Root(KernelTree)] == s1.nodes[Root(KernelTree)]
    ensures OnlyKernelNodes(s0, s3)
  {
    OnlyKernelAdded(s0, s1, s2, s3, a, b);
    FramesGiven(s0.free, s1.free, s2.free, s3.free, a, b);
    hide LeavesSet, PlainKept, LeafWord, LeafEntry, ProtToType, Bare, IdentityLeaf;
    IdentityFollows(s1, s2, s3, etext, n1, n2);
    PlainKeptTrans(s0, s1, s2);
    PlainKeptTrans(s0, s2, s3);
    forall t, v: nat | t != KernelTree ensures LeafWord(s3, t, v) == LeafWord(s0, t, v) {
      assert LeafWord(s1, t, v) == LeafWord(s0, t, v);
    }
  }

  method KernVmInit(mc: Machine, etext: nat) returns (r: Outcome, root: nat)
    requires mc.Valid() && Root(KernelTree) !in mc.nodes
    requires KERN_BASE <= etext <= PHYS_TOP && etext % PAGE_SIZE == 0
    modifies mc
    ensures mc.startAddr == old(mc.startAddr) && mc.endAddr == old(mc.endAddr)
    ensures r.Done? || r.Halted?
    ensures r.Done? <==> |old(mc.free)| >= KERNEL_MAP_FRAMES
    ensures r.Done? ==>
      && mc.Valid() && Root(KernelTree) in mc.nodes && root == mc.nodes[Root(KernelTree)] * PAGE_SIZE
      && (forall v: nat :: LeafWord(mc.S(), KernelTree, v) == IdentityLeaf(etext, v))
      && (forall t, v: nat :: t != KernelTree ==> LeafWord(mc.S(), t, v) == LeafWord(old(mc.S()), t, v))
      && PlainKept(old(mc.S()), mc.S())
      && ListDropped(old(mc.free), mc.free, KERNEL_MAP_FRAMES) && OnlyKernelNodes(old(mc.S()), mc.S())
  {
    hide OnlyKernelNodes, Machine.Valid, RangeMapped, CanMap, Missing, SameLeaves, PlainKept, Bare, TablesFor,
      LeafWord, ProtToType, LeafEntry, IdentityLeaf, NodesAdded;
    ghost var s0 := mc.S();
    root := NewDirectory(mc, KernelTree);
    if root == 0 {
      return Halted, 0;
    }
    ghost var s1, n1, n2 := mc.S(), etext / PAGE_SIZE - KERN_VPN, TOP_VPN - etext / PAGE_SIZE;
    PagesOfRange(KERN_VPN, n1);
    PagesOfRange(KERN_VPN + n1, n2);
    TextNeeds(s1, n1);
    ghost var n, a, b := 0, {}, {};
    r, n, a := VmMap(mc, root, KERN_BASE, DRAM_BASE, etext - KERN_BASE, KernelText(), KernelTree);
    if !r.Done? {
      return;
    }
    ghost var s2 := mc.S();
    RootStays(s1, s2, KernelTree, KERN_VPN, n1, DRAM_BASE, KernelText(), a);
    DataNeeds(s1, s2, n1, n2, DRAM_BASE, KernelText(), a);
    r, n, b := VmMap(mc, root, etext, etext, PHYS_TOP - etext, KernelData(), KernelTree);
    if !r.Done? {
      return;
    }
    KernelMapDone(s0, s1, s2, mc.S(), etext, n1, n2, a, b);
  }

  /** What the identity map grants: execution exactly below etext, writing exactly above, to the kernel only. */
  lemma IdentityLeafMeaning(etext: nat, v: nat)
    requires KERN_BASE <= etext <= PHYS_TOP && etext % PAGE_SIZE == 0
    ensures var w := IdentityLeaf(etext, v);
      && Sound(w)
      && (Valid(w) <==> 0x8000_0000 <= v * PAGE_SIZE < 0x8800_0000)
      && (Valid(w) ==>
            && FrameOf(w) == v && Readable(w) && !UserPage(w)
            && (Executable(w) <==> v * PAGE_SIZE < etext)
            && (Writable(w) <==> etext <= v * PAGE_SIZE))
  {
    hide LeafEntry, ProtToType, Bit;
    if KERN_VPN <= v < TOP_VPN {
      assert v * PAGE_SIZE / PAGE_SIZE == v;
      EncodedLeaf(v * PAGE_SIZE, PROT_READ + PROT_EXEC, false);
      EncodedLeaf(v * PAGE_SIZE, PROT_READ + PROT_WRITE, false);
    }
  }
}
