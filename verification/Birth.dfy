/**
 The memory of a new process (kernel/process.c): frames taken from the free list one by
 one, then mapped, without a trace in anybody else's memory.
 */
module Birth {
  import opened Words
  import opened Sv39
  import opened Layout
  import opened Pmm
  import opened Vmm
  import opened Hardware
  import opened KernelMap
  import opened Ownership
  import opened UserMemory
  import opened Spaces
  import opened Shape

  /**
   From s0 to s process n took the frames in `own`, which now have the uses given there,
   and nothing else in use was touched.
   */
  ghost predicate Fresh(s0: State, s: State, n: nat, own: map<nat, Role>) {
    && Evolves(s0, s, n, {})
    && (forall g :: g in own ==> g in s0.roles && s0.roles[g].Free? && g in s.roles && s.roles[g] == own[g])
    && (forall g :: g in s.roles && s.roles[g].Plain() && g !in own ==> g in s0.roles && s0.roles[g].Plain())
  }

  lemma NothingFresh(s: State, n: nat)
    ensures Fresh(s, s, n, map[])
  {
  }

  lemma FreshTake(s0: State, s: State, s': State, n: nat, own: map<nat, Role>, f: nat)
    requires Fresh(s0, s, n, own) && Took(s, s', f) && forall g :: g in own ==> own[g].Plain()
    ensures Fresh(s0, s', n, own[f := Taken]) && f !in own && SameLeaves(s, s')
  {
    hide LeavesStay, NodesStay, SameLeaves;
    TookEvolves(s, s', f, n);
    EvolvesThen(s0, s, s', n);
  }

  lemma FreshFill(s0: State, s: State, n: nat, own: map<nat, Role>, f: nat, page: Page, role: Role)
    requires Fresh(s0, s, n, own) && f in own && Well(s) && s.roles[f].Plain() && |page| == ENTRIES && role.Plain()
    requires !role.Image?
    ensures Fresh(s0, Fill(s, f, page, role), n, own[f := role])
    ensures Well(Fill(s, f, page, role)) && SameLeaves(s, Fill(s, f, page, role))
  {
    hide Evolves, SameLeaves, Well;
    var s' := Fill(s, f, page, role);
    FillEvolves(s, f, page, role, n);
    EvolvesTrans(s0, s, s', n, {}, {f});
    EvolvesFresh(s0, s', n, {} + {f});
  }

  lemma FreshTree(s0: State, s: State, s': State, n: nat, own: map<nat, Role>)
    requires Fresh(s0, s, n, own) && NewTree(s, s', UserTree(n)) && s.mem.Keys == s.roles.Keys
    requires forall g :: g in own ==> own[g].Plain()
    ensures Fresh(s0, s', n, own)
  {
    hide Evolves, SameLeaves, Bare, TablesAdded;
    NewTreeEvolves(s, s', n);
    EvolvesThen(s0, s, s', n);
    forall g | g in s'.roles && s'.roles[g].Plain() && g !in own ensures g in s0.roles && s0.roles[g].Plain() {
      assert g in s.roles.Keys;
    }
    forall g | g in own ensures g in s'.roles && s'.roles[g] == own[g] {
      assert g in s.mem.Keys && g in s'.roles.Keys;
    }
  }

  lemma NewTreeEvolves(s: State, s': State, n: nat)
    requires NewTree(s, s', UserTree(n)) && s.mem.Keys == s.roles.Keys
    ensures Evolves(s, s', n, {})
  {
    hide LeafWord, Valid, Bare, TablesAdded, PlainKept, FramesStay, NodesStay;
    AddedNodesStay(s, s', n, {Root(UserTree(n))});
    PlainKeptFrames(s, s');
  }

  lemma PlainKeptFrames(s: State, s': State)
    requires PlainKept(s, s') && s.mem.Keys == s.roles.Keys
    ensures FramesStay(s, s', {})
  {
    forall g | g in s.roles && s'.roles[g].Image? ensures s.roles[g].Image? {
      assert g in s'.roles.Keys && s'.roles[g].Plain() && s.roles[g].Plain() && g in s.mem;
    }
    assert forall g :: g in s.roles ==> g in s'.roles.Keys;
  }

  lemma FreshGrant(s0: State, s: State, s': State, n: nat, own: map<nat, Role>, v: nat, f: nat, role: Role, w: nat)
    requires Fresh(s0, s, n, own) && Granted(s, s', n, v, f, role, w)
    requires (f in own && f in s.mem) || (f in s.roles && f in s.mem && s.roles[f] == role)
    requires role.Plain() && forall g :: g in own ==> own[g].Plain()
    ensures Fresh(s0, s', n, if f in own then own[f := role] else own)
  {
    hide LeafWord, Valid, LeafChanged, Evolves;
    GrantStays(s0, s, s', n, v, f, role, w);
    assert s'.roles.Keys == s.roles.Keys;
    var own' := if f in own then own[f := role] else own;
    forall g | g in own' ensures g in s0.roles && s0.roles[g].Free? && g in s'.roles && s'.roles[g] == own'[g] {
      assert g in own && g in s.roles.Keys;
    }
    forall g | g in s'.roles && s'.roles[g].Plain() && g !in own' ensures g in s0.roles && s0.roles[g].Plain() {
      assert g in s.roles.Keys && g !in own;
    }
  }

  /** A grant of a frame that was free at the start, or that keeps its use, changes nothing else in use. */
  lemma GrantStays(s0: State, s: State, s': State, n: nat, v: nat, f: nat, role: Role, w: nat)
    requires Evolves(s0, s, n, {}) && Granted(s, s', n, v, f, role, w) && f in s.roles && f in s.mem
    requires (f in s0.roles && s0.roles[f].Free?) || s.roles[f] == role
    ensures Evolves(s0, s', n, {})
  {
    hide LeafWord, Valid, LeafChanged, LeavesStay, NodesStay, RolesKept;
    EvolvesTrans(s0, s, s', n, {}, {f});
    if f in s0.roles && s0.roles[f].Free? {
      EvolvesFresh(s0, s', n, {} + {f});
    } else {
      GrantSame(s, s', f);
      EvolvesThen(s0, s, s', n);
    }
  }

  lemma GrantSame(s: State, s': State, f: nat)
    requires FramesStay(s, s', {f}) && f in s.roles && f in s.mem && s'.roles[f] == s.roles[f] && s'.mem[f] == s.mem[f]
    ensures FramesStay(s, s', {})
  {
  }

  lemma NewTreeOrderly(s: State, s': State, n: nat, trapSec: nat)
    requires Orderly(s, n, trapSec) && NewTree(s, s', UserTree(n)) && Well(s')
    ensures Orderly(s', n + 1, trapSec)
  {
    hide TreesOk, FreeOk, LeafWord, Valid, TablesAdded, PlainKept, RolesKept, LeavesOwned, Bare, TreesOwned;
    KeysKept(s, s');
    PlainFramesStay(s, s', 0);
    assert 0 !in s.roles.Keys;
    RetagKeepsLeaves(s, s', n, trapSec, 0);
    MoreLeavesOwned(s', n, trapSec);
    MoreTreesOwned(s, s', n);
  }

  lemma MoreTreesOwned(s: State, s': State, n: nat)
    requires TreesOwned(s, n) && TablesAdded(s, s', {Root(UserTree(n))})
    ensures TreesOwned(s', n + 1)
  {
    forall id | id in s'.nodes && id.tree.UserTree? ensures id.tree.pid < n + 1 {
      assert id in s'.nodes.Keys;
    }
    forall pid: nat | pid < n + 1 ensures Root(UserTree(pid)) in s'.nodes {
      assert pid < n ==> Root(UserTree(pid)) in s.nodes.Keys;
      assert Root(UserTree(pid)) in s'.nodes.Keys;
    }
  }

  lemma MoreLeavesOwned(s: State, n: nat, trapSec: nat)
    requires LeavesOwned(s, n, trapSec) && Bare(s, UserTree(n))
    ensures LeavesOwned(s, n + 1, trapSec)
  {
    hide LeafWord, Valid, Sound, FrameOf;
    forall pid: nat, v: nat | pid < n + 1 ensures LeafOk(s, trapSec, pid, v) {
      if pid == n {
        assert LeafWord(s, UserTree(n), v) == 0;
        ZeroIsInvalid();
      }
    }
    forall f | f in s.roles ensures RoleOk(s, n + 1, f) {
      assert RoleOk(s, n, f);
    }
  }

  lemma ZeroIsInvalid()
    ensures !Valid(0)
  {
  }

  // ---- alloc_process, first half: the frames ----

  /** Words of a saved context, and the places of the stack pointer and of a0 in it. */
  const CONTEXT_WORDS: nat := 35
  const SP_WORD: nat := 1
  const A0_WORD: nat := 9

  function ClearContext(page: Page): (p: Page)
    requires |page| == ENTRIES
    ensures |p| == ENTRIES
  {
    seq(CONTEXT_WORDS, i => 0) + page[CONTEXT_WORDS..]
  }

  /** A cleared context with the stack pointer at the top of the user stack. */
  ghost predicate NewContext(page: Page) {
    |page| == ENTRIES &&
    forall i :: 0 <= i < 35 ==> page[i] == if i == 1 then 0x7fff_f000 else 0
  }

  /** Take a page for process n. */
  method TakeFresh(mc: Machine, ghost m: nat, ghost trapSec: nat, ghost s0: State, ghost n: nat,
                   ghost own: map<nat, Role>)
      returns (f: nat)
    requires mc.Valid() && Orderly(mc.S(), m, trapSec) && Fresh(s0, mc.S(), n, own)
    requires forall g :: g in own ==> own[g].Plain()
    modifies mc
    ensures mc.Valid() && mc.startAddr == old(mc.startAddr) && mc.endAddr == old(mc.endAddr)
    ensures Orderly(mc.S(), m, trapSec) && SameLeaves(old(mc.S()), mc.S())
    ensures f == 0 <==> old(mc.free) == []
    ensures f == 0 ==> mc.S() == old(mc.S())
    ensures f != 0 ==> f !in own && Fresh(s0, mc.S(), n, own[f := Taken]) && f in mc.mem && f < PPN_LIMIT
    ensures mc.mem == old(mc.mem) && mc.nodes == old(mc.nodes) && mc.free == Rest(old(mc.free))
    ensures f != 0 ==> f == old(mc.free)[0]
    ensures Bare(old(mc.S()), UserTree(n)) ==> Bare(mc.S(), UserTree(n))
  {
    hide Orderly, Fresh, LeafWord;
    ghost var s := mc.S();
    var pa := TakePage(mc, m, trapSec);
    f := pa / PAGE_SIZE;
    if pa != 0 {
      FreshTake(s0, s, mc.S(), n, own, f);
    } 
  }

  /** Overwrite a frame that process n took. */
  method FillFresh(mc: Machine, f: nat, page: Page, ghost m: nat, ghost trapSec: nat,
                   ghost s0: State, ghost n: nat, ghost own: map<nat, Role>, ghost role: Role)
    requires mc.Valid() && Orderly(mc.S(), m, trapSec) && Fresh(s0, mc.S(), n, own)
    requires f in own && own[f].Plain() && f in mc.mem && |page| == ENTRIES && role.Plain() && !role.Image?
    requires role == own[f] || (own[f].Taken? && !role.Private? && !role.Code?)
    modifies mc
    ensures mc.Valid() && mc.startAddr == old(mc.startAddr) && mc.endAddr == old(mc.endAddr)
    ensures Orderly(mc.S(), m, trapSec) && Fresh(s0, mc.S(), n, own[f := role]) && SameLeaves(old(mc.S()), mc.S())
    ensures mc.S() == Fill(old(mc.S()), f, page, role)
    ensures role == own[f] ==> Fresh(s0, mc.S(), n, own)
    ensures Bare(old(mc.S()), UserTree(n)) ==> Bare(mc.S(), UserTree(n))
  {
    hide Well, TreesOwned, LeavesOwned, Evolves, LeafWord;
    ghost var s := mc.S();
    mc.mem := mc.mem[f := page];
    mc.roles := mc.roles[f := role];
    FillIsOrderly(s, m, trapSec, f, page, role);
    FreshFill(s0, s, n, own, f, page, role);
    assert role == own[f] ==> own[f := role] == own;
  }

  /** The directory of process n, next to frames it took before. */
  method PlantFresh(mc: Machine, ghost trapSec: nat, ghost s0: State, ghost n: nat, ghost own: map<nat, Role>)
      returns (root: nat)
    requires mc.Valid() && Orderly(mc.S(), n, trapSec) && Fresh(s0, mc.S(), n, own)
    requires forall g :: g in own ==> own[g].Plain()
    modifies mc
    ensures mc.Valid() && mc.startAddr == old(mc.startAddr) && mc.endAddr == old(mc.endAddr)
    ensures root == 0 <==> old(mc.free) == []
    ensures root == 0 ==> mc.S() == old(mc.S())
    ensures root != 0 ==> mc.free == Rest(old(mc.free))
    ensures root != 0 ==>
      && Orderly(mc.S(), n + 1, trapSec) && Fresh(s0, mc.S(), n, own) && Bare(mc.S(), UserTree(n))
      && Root(UserTree(n)) in mc.nodes && mc.nodes[Root(UserTree(n))] == root
      && (forall f :: f in own && f in old(mc.mem) ==> f in mc.mem && mc.mem[f] == old(mc.mem)[f])
  {
    hide Well, LeavesOwned, LeafWord, Bare, TablesAdded, Evolves;
    ghost var s := mc.S();
    assert Root(UserTree(n)) !in s.nodes;
    var pa := NewDirectory(mc, UserTree(n));
    root := pa / PAGE_SIZE;
    if pa != 0 {
      OneTableAdded(s, mc.S(), Root(UserTree(n)));
      SameKeys(s);
      NewTreeOrderly(s, mc.S(), n, trapSec);
      FreshTree(s0, s, mc.S(), n, own);
      forall f | f in own && f in s.mem ensures f in mc.mem && mc.mem[f] == s.mem[f] {
        assert f in s.mem.Keys && f in mc.mem.Keys;
      }
    }
  }

  lemma OneTableAdded(s: State, s': State, id: NodeId)
    requires TablesAdded(s, s', {id})
    ensures s.free != [] && s'.free == Rest(s.free)
  {
    hide NodesAdded;
  }

  lemma SameKeys(s: State)
    requires Well(s)
    ensures s.mem.Keys == s.roles.Keys && 0 !in s.mem
  {
  }

  /** The first two frames of a new process: trapframe and directory. */
  method NewRoot(mc: Machine, ghost n: nat, ghost trapSec: nat) returns (r: Outcome, tf: nat, root: nat)
    requires mc.Valid() && Orderly(mc.S(), n, trapSec)
    modifies mc
    ensures mc.Valid() && mc.startAddr == old(mc.startAddr) && mc.endAddr == old(mc.endAddr)
    ensures r.Done? || r.Halted?
    ensures r.Done? <==> |old(mc.free)| >= 2
    ensures r.Done? ==> tf == old(mc.free)[0] && mc.free == old(mc.free)[2..]
    ensures r.Done? ==>
      && Fresh(old(mc.S()), mc.S(), n, map[tf := Taken]) && 0 < tf < PPN_LIMIT
      && Orderly(mc.S(), n + 1, trapSec) && Bare(mc.S(), UserTree(n))
      && Root(UserTree(n)) in mc.nodes && mc.nodes[Root(UserTree(n))] == root
      && tf in mc.mem && |mc.mem[tf]| == ENTRIES
      && (forall i :: 0 <= i < CONTEXT_WORDS ==> mc.mem[tf][i] == 0)
  {
    hide Orderly, Fresh, Bare, SameLeaves, Machine.Valid;
    root := 0;
    ghost var s0 := mc.S();
    NothingFresh(s0, n);
    tf := TakeFresh(mc, n, trapSec, s0, n, map[]);
    if tf == 0 { return Halted, tf, root; }
    PageSize(mc, tf);
    FillFresh(mc, tf, ClearContext(mc.mem[tf]), n, trapSec, s0, n, map[tf := Taken], Taken);
    root := PlantFresh(mc, trapSec, s0, n, map[tf := Taken]);
    if root == 0 { return Halted, tf, root; }
    r := Done;
  }

  /** The five frames of a new process, in the order the kernel takes them. */
  method NewFrames(mc: Machine, ghost n: nat, ghost trapSec: nat)
      returns (r: Outcome, tf: nat, root: nat, ks: nat, us: nat, info: nat)
    requires mc.Valid() && Orderly(mc.S(), n, trapSec)
    modifies mc
    ensures mc.Valid() && mc.startAddr == old(mc.startAddr) && mc.endAddr == old(mc.endAddr)
    ensures r.Done? || r.Halted?
    ensures r.Done? <==> |old(mc.free)| >= 5
    ensures r.Done? ==> tf == old(mc.free)[0] && mc.free == old(mc.free)[5..]
    ensures r.Done? ==>
      && FourFrames(mc.mem, tf, ks, us, info) && Fresh(old(mc.S()), mc.S(), n, TakenFrames(tf, ks, us, info))
      && Orderly(mc.S(), n + 1, trapSec) && Bare(mc.S(), UserTree(n))
      && Root(UserTree(n)) in mc.nodes && mc.nodes[Root(UserTree(n))] == root
      && NewContext(mc.mem[tf])
  {
    hide Orderly, Fresh, Bare, SameLeaves, Machine.Valid;
    ks, us, info := 0, 0, 0;
    ghost var s0 := mc.S();
    r, tf, root := NewRoot(mc, n, trapSec);
    if !r.Done? { return; }
    ghost var own := map[tf := Taken];
    ks := TakeFresh(mc, n + 1, trapSec, s0, n, own);
    if ks != 0 { own := own[ks := Taken]; }
    us := TakeFresh(mc, n + 1, trapSec, s0, n, own);
    if us != 0 { own := own[us := Taken]; }
    FillFresh(mc, tf, Put(mc.mem[tf], SP_WORD, USER_STACK_TOP), n + 1, trapSec, s0, n, own, Taken);
    info := TakeFresh(mc, n + 1, trapSec, s0, n, own);
    if info == 0 { return Halted, tf, root, ks, us, info; }
    assert ks != 0 && us != 0 && own == map[tf := Taken, ks := Taken, us := Taken];
    own := own[info := Taken];
    FillFresh(mc, info, Zeros(), n + 1, trapSec, s0, n, own, Taken);
  }

  lemma PageSize(mc: Machine, f: nat)
    requires mc.Valid() && f in mc.mem
    ensures |mc.mem[f]| == ENTRIES
  {
  }

  // ---- alloc_process, second half: the mappings ----

  const READ_EXEC: nat := PROT_READ + PROT_EXEC

  /** The leaves of a new process: its stack for itself, its trapframe and the trap section for the kernel. */
  function NewLeaf(tf: nat, us: nat, trapSec: nat, v: nat): nat {
    if v == trapSec then LeafEntry(trapSec * PAGE_SIZE, ProtToType(READ_EXEC, false))
    else if v == tf then LeafEntry(tf * PAGE_SIZE, ProtToType(READ_WRITE, false))
    else if v == STACK_VPN then UserReadWrite(us * PAGE_SIZE)
    else 0
  }

  /** One mapping of a new process. */
  method MapFresh(mc: Machine, root: nat, v: nat, f: nat, prot: nat, user: bool, ghost trapSec: nat,
                  ghost s0: State, ghost n: nat, ghost own: map<nat, Role>, ghost role: Role, ghost pages: seq<nat>)
      returns (r: Outcome)
    requires mc.Valid() && Orderly(mc.S(), n + 1, trapSec) && Fresh(s0, mc.S(), n, own)
    requires Shaped(s0, mc.S(), n, pages, 5)
    requires Root(UserTree(n)) in mc.nodes && root == mc.nodes[Root(UserTree(n))]
    requires forall g :: g in own ==> own[g].Plain()
    requires 0 < v && f < PPN_LIMIT && v < PPN_LIMIT && Asks(prot, PROT_READ) && role.Plain() && f in mc.mem
    requires MayLead(mc.S(), trapSec, n, v, f, role) && f in mc.roles && (f in own || mc.roles[f] == role)
    requires Suits(n, prot, user, role)
    modifies mc
    ensures mc.Valid() && mc.startAddr == old(mc.startAddr) && mc.endAddr == old(mc.endAddr)
    ensures r.Done? || r.Halted?
    ensures r.Done? <==> Fits(s0, n, pages + [v], 5)
    ensures r.Done? ==> Shaped(s0, mc.S(), n, pages + [v], 5)
    ensures r.Done? ==>
      && Orderly(mc.S(), n + 1, trapSec) && Fresh(s0, mc.S(), n, if f in own then own[f := role] else own)
      && LeafChanged(old(mc.S()), mc.S(), UserTree(n), v, LeafEntry(f * PAGE_SIZE, ProtToType(prot, user)))
      && !Valid(LeafWord(old(mc.S()), UserTree(n), v))
      && Root(UserTree(n)) in mc.nodes && root == mc.nodes[Root(UserTree(n))]
      && FramesStay(old(mc.S()), mc.S(), {f}) && mc.mem.Keys == old(mc.mem.Keys) && mc.mem[f] == old(mc.mem)[f]
  {
    hide Well, TreesOwned, LeavesOwned, LeafEntry, ProtToType, LeafWord, LeafChanged, MayLead, Shaped, Fits, CanMap,
      TablesAdded, PathOf;
    PagesOfRange(v, 1);
    AddressOfFrame(f);
    ghost var s := mc.S();
    CanMapNext(s0, s, n, pages, 5, v);
    r := MapOwned(mc, root * PAGE_SIZE, v * PAGE_SIZE, PAGE_SIZE, f * PAGE_SIZE, prot, user, n + 1, trapSec, n, role);
    if r.Done? {
      LeafValid(f * PAGE_SIZE, ProtToType(prot, user));
      ShapedMap(s0, s, mc.S(), n, pages, 5, v, LeafEntry(f * PAGE_SIZE, ProtToType(prot, user)));
      hide LeavesStay, Fresh;
      FreshGrant(s0, s, mc.S(), n, own, v, f, role, LeafEntry(f * PAGE_SIZE, ProtToType(prot, user)));
    } else {
      r := Halted;
    }
  }

  lemma AddressOfFrame(f: nat)
    ensures f * PAGE_SIZE / PAGE_SIZE == f
  {
  }

  ghost predicate NewLeaves(s: State, n: nat, tf: nat, us: nat, trapSec: nat) {
    forall v: nat :: LeafWord(s, UserTree(n), v) == NewLeaf(tf, us, trapSec, v)
  }

  lemma ThreeLeaves(s0: State, s1: State, s2: State, s3: State, n: nat, tf: nat, us: nat, trapSec: nat)
    requires Bare(s0, UserTree(n))
    requires LeafChanged(s0, s1, UserTree(n), STACK_VPN, UserReadWrite(us * PAGE_SIZE))
    requires LeafChanged(s1, s2, UserTree(n), tf, LeafEntry(tf * PAGE_SIZE, ProtToType(READ_WRITE, false)))
    requires LeafChanged(s2, s3, UserTree(n), trapSec, LeafEntry(trapSec * PAGE_SIZE, ProtToType(READ_EXEC, false)))
    ensures NewLeaves(s3, n, tf, us, trapSec)
  {
    hide LeafWord, LeafEntry, ProtToType;
    forall v: nat ensures LeafWord(s3, UserTree(n), v) == NewLeaf(tf, us, trapSec, v) {
      assert LeafWord(s0, UserTree(n), v) == 0;
      assert LeafWord(s1, UserTree(n), v) == if v == STACK_VPN then UserReadWrite(us * PAGE_SIZE) else 0;
      assert LeafWord(s2, UserTree(n), v) == LeafWord(s2, UserTree(n), v);
    }
  }

  lemma NewLeavesStay(s: State, s': State, n: nat, tf: nat, us: nat, trapSec: nat)
    requires NewLeaves(s, n, tf, us, trapSec) && SameLeaves(s, s')
    ensures NewLeaves(s', n, tf, us, trapSec)
  {
    hide LeafWord, NewLeaf;
  }

  ghost function TakenFrames(tf: nat, ks: nat, us: nat, info: nat): map<nat, Role> {
    map[tf := Taken, ks := Taken, us := Taken, info := Taken]
  }

  ghost function MappedFrames(n: nat, tf: nat, ks: nat, us: nat, info: nat): map<nat, Role> {
    map[tf := Trapframe(n), ks := Taken, us := Private(n, STACK_VPN), info := Taken]
  }

  ghost function OwnFrames(n: nat, tf: nat, ks: nat, us: nat, info: nat): map<nat, Role> {
    map[tf := Trapframe(n), ks := KernelStack(n), us := Private(n, STACK_VPN), info := RegionTable(n)]
  }

  ghost predicate FourFrames(m: Memory, tf: nat, ks: nat, us: nat, info: nat) {
    && tf !in {ks, us, info} && ks !in {us, info} && us != info
    && tf in m && ks in m && us in m && info in m && tf < PPN_LIMIT && us < PPN_LIMIT && 0 < tf
  }

  lemma FreshIn(s0: State, s: State, n: nat, own: map<nat, Role>, f: nat)
    requires Fresh(s0, s, n, own) && f in own
    ensures f in s.roles && s.roles[f] == own[f]
  {
  }

  lemma TakenMay(s: State, trapSec: nat, pid: nat, v: nat, f: nat, role: Role)
    requires f in s.roles && s.roles[f].Taken? && (role == Private(pid, v) || (role == Trapframe(pid) && v == f))
    ensures MayLead(s, trapSec, pid, v, f, role)
  {
  }

  /** A page mapped a moment ago is not vacant. */
  lemma MappedElsewhere(s: State, s1: State, n: nat, v: nat, pa: nat, perm: nat, u: nat)
    requires LeafChanged(s, s1, UserTree(n), v, LeafEntry(pa, perm))
    ensures Valid(LeafWord(s1, UserTree(n), v))
    ensures !Valid(LeafWord(s1, UserTree(n), u)) ==> u != v
    ensures u != v && Valid(LeafWord(s, UserTree(n), u)) ==> Valid(LeafWord(s1, UserTree(n), u))
  {
    hide LeafWord, LeafEntry, Valid;
    LeafValid(pa, perm);
    assert LeafWord(s1, UserTree(n), u) == if u == v then LeafEntry(pa, perm) else LeafWord(s, UserTree(n), u);
    assert LeafWord(s1, UserTree(n), v) == LeafEntry(pa, perm);
  }

  /** The three mappings of a new process. */
  method NewMaps(mc: Machine, root: nat, tf: nat, ghost ks: nat, us: nat, ghost info: nat, trapSec: nat,
                 ghost s0: State, ghost n: nat)
      returns (r: Outcome)
    requires mc.Valid() && Orderly(mc.S(), n + 1, trapSec) && Bare(mc.S(), UserTree(n))
    requires FourFrames(mc.mem, tf, ks, us, info) && Fresh(s0, mc.S(), n, TakenFrames(tf, ks, us, info))
    requires Root(UserTree(n)) in mc.nodes && root == mc.nodes[Root(UserTree(n))]
    requires 0 < trapSec < PPN_LIMIT && trapSec in mc.mem && trapSec in mc.roles && mc.roles[trapSec].Image?
    requires Shaped(s0, mc.S(), n, [], 5)
    modifies mc
    ensures mc.Valid() && mc.startAddr == old(mc.startAddr) && mc.endAddr == old(mc.endAddr)
    ensures r.Done? || r.Halted?
    ensures r.Done? <==> Fits(s0, n, [STACK_VPN, tf, trapSec], 5)
    ensures r.Done? ==> Shaped(s0, mc.S(), n, [STACK_VPN, tf, trapSec], 5)
    ensures r.Done? ==>
      && Orderly(mc.S(), n + 1, trapSec) && Fresh(s0, mc.S(), n, MappedFrames(n, tf, ks, us, info))
      && NewLeaves(mc.S(), n, tf, us, trapSec) && STACK_VPN !in {tf, trapSec}
      && Root(UserTree(n)) in mc.nodes && root == mc.nodes[Root(UserTree(n))]
      && FourFrames(mc.mem, tf, ks, us, info) && tf in old(mc.mem) && mc.mem[tf] == old(mc.mem)[tf]
  {
    hide Orderly, Fresh, MayLead, LeafEntry, ProtToType, LeafWord, LeafChanged, Bare, Machine.Valid, NewLeaves, Valid,
      FramesStay, Shaped, Fits;
    FirstOnes(s0, n, tf, trapSec);
    ghost var own := TakenFrames(tf, ks, us, info);
    ghost var s := mc.S();
    ImageNotFresh(s0, s, n, own, trapSec);
    FreshIn(s0, s, n, own, us);
    FreshIn(s0, s, n, own, tf);
    TakenMay(s, trapSec, n, STACK_VPN, us, Private(n, STACK_VPN));
    r := MapFresh(mc, root, STACK_VPN, us, READ_WRITE, true, trapSec, s0, n, own, Private(n, STACK_VPN), []);
    if !r.Done? { return; }
    own := own[us := Private(n, STACK_VPN)];
    ghost var s1 := mc.S();
    PlainStays(s, s1, us, tf);
    PlainStays(s, s1, us, trapSec);
    MappedElsewhere(s, s1, n, STACK_VPN, us * PAGE_SIZE, ProtToType(READ_WRITE, true), tf);
    FreshIn(s0, s1, n, own, tf);
    TakenMay(s1, trapSec, n, tf, tf, Trapframe(n));
    r := MapFresh(mc, root, tf, tf, READ_WRITE, false, trapSec, s0, n, own, Trapframe(n), [STACK_VPN]);
    if !r.Done? { return; }
    own := own[tf := Trapframe(n)];
    ghost var s2 := mc.S();
    PlainStays(s1, s2, tf, trapSec);
    MappedElsewhere(s1, s2, n, tf, tf * PAGE_SIZE, ProtToType(READ_WRITE, false), STACK_VPN);
    FreshIn(s0, s2, n, own, tf);
    ImageMay(s2, trapSec, n);
    r := MapFresh(mc, root, trapSec, trapSec, READ_EXEC, false, trapSec, s0, n, own, Image, [STACK_VPN, tf]);
    if !r.Done? { return; }
    PlainStays(s2, mc.S(), trapSec, tf);
    ThreeLeaves(s, s1, s2, mc.S(), n, tf, us, trapSec);
    MappedFrom(n, tf, ks, us, info);
  }

  lemma FirstOnes(s0: State, n: nat, tf: nat, trapSec: nat)
    ensures [] + [STACK_VPN] == [STACK_VPN] && [STACK_VPN] + [tf] == [STACK_VPN, tf]
    ensures [STACK_VPN, tf] + [trapSec] == [STACK_VPN, tf, trapSec]
    ensures Fits(s0, n, [STACK_VPN, tf, trapSec], 5) ==> Fits(s0, n, [STACK_VPN], 5) && Fits(s0, n, [STACK_VPN, tf], 5)
  {
    hide Fits;
    assert [STACK_VPN] + [tf, trapSec] == [STACK_VPN, tf, trapSec];
    assert [STACK_VPN, tf] + [trapSec] == [STACK_VPN, tf, trapSec];
    if Fits(s0, n, [STACK_VPN, tf, trapSec], 5) {
      FitsPrefix(s0, n, [STACK_VPN], [tf, trapSec], 5, 5);
      FitsPrefix(s0, n, [STACK_VPN, tf], [trapSec], 5, 5);
    }
  }

  lemma MappedFrom(n: nat, tf: nat, ks: nat, us: nat, info: nat)
    requires tf !in {ks, us, info} && us !in {ks, info}
    ensures TakenFrames(tf, ks, us, info)[us := Private(n, STACK_VPN)][tf := Trapframe(n)] ==
      MappedFrames(n, tf, ks, us, info)
  {
  }

  lemma OwnFrom(n: nat, tf: nat, ks: nat, us: nat, info: nat)
    requires tf !in {ks, us, info} && ks !in {us, info} && us != info
    ensures MappedFrames(n, tf, ks, us, info)[ks := KernelStack(n)][info := RegionTable(n)] ==
      OwnFrames(n, tf, ks, us, info)
  {
  }

  /** The pages a new process maps: its stack, its trapframe, which is the first frame taken, and the trap section. */
  function FirstPages(free: seq<nat>, trapSec: nat): seq<nat> {
    [STACK_VPN, if free == [] then 0 else free[0], trapSec]
  }

  lemma FitsNeedsFrames(s0: State, n: nat, pages: seq<nat>, taken: nat)
    ensures Fits(s0, n, pages, taken) ==> taken <= |s0.free|
  {
    hide Tables;
  }

  lemma BareIsShaped(s0: State, s: State, n: nat, taken: nat)
    requires Bare(s, UserTree(n)) && Root(UserTree(n)) in s.nodes && |s0.free| == |s.free| + taken
    ensures Shaped(s0, s, n, [], taken)
  {
    hide LeafWord;
    ZeroIsInvalid();
    assert Tables(UserTree(n), []) == {};
    forall v: nat ensures !Valid(LeafWord(s, UserTree(n), v)) {
      assert LeafWord(s, UserTree(n), v) == 0;
    }
  }

  /** alloc_process: the frames of process n, their mappings, and the record of who owns them. */
  method NewProcessMemory(mc: Machine, trapSec: nat, ghost n: nat)
      returns (r: Outcome, root: nat, tf: nat, ks: nat, us: nat, info: nat)
    requires mc.Valid() && Orderly(mc.S(), n, trapSec)
    requires 0 < trapSec < PPN_LIMIT && trapSec in mc.mem && trapSec in mc.roles && mc.roles[trapSec].Image?
    modifies mc
    ensures mc.Valid() && mc.startAddr == old(mc.startAddr) && mc.endAddr == old(mc.endAddr)
    ensures r.Done? || r.Halted?
    ensures r.Done? <==> Fits(old(mc.S()), n, FirstPages(old(mc.free), trapSec), 5)
    ensures r.Done? ==> Shaped(old(mc.S()), mc.S(), n, FirstPages(old(mc.free), trapSec), 5)
    ensures r.Done? ==> old(mc.free) != [] && tf == old(mc.free)[0]
    ensures r.Done? ==>
      && Orderly(mc.S(), n + 1, trapSec) && Fresh(old(mc.S()), mc.S(), n, OwnFrames(n, tf, ks, us, info))
      && FourFrames(mc.mem, tf, ks, us, info) && NewLeaves(mc.S(), n, tf, us, trapSec) && STACK_VPN !in {tf, trapSec}
      && Root(UserTree(n)) in mc.nodes && root == mc.nodes[Root(UserTree(n))]
      && NewContext(mc.mem[tf])
  {
    hide Orderly, Fresh, Bare, Machine.Valid, NewLeaves, TakenFrames, OwnFrames, NewContext, Shaped, Fits, SameLeaves;
    ghost var s0 := mc.S();
    FitsNeedsFrames(s0, n, FirstPages(s0.free, trapSec), 5);
    r, tf, root, ks, us, info := NewFrames(mc, n, trapSec);
    if !r.Done? { return; }
    BareIsShaped(s0, mc.S(), n, 5);
    ImageStays(s0, mc.S(), n, TakenFrames(tf, ks, us, info), trapSec);
    r := NewMaps(mc, root, tf, ks, us, info, trapSec, s0, n);
    if !r.Done? { return; }
    ghost var s3 := mc.S();
    PageSize(mc, ks);
    FillFresh(mc, ks, mc.mem[ks], n + 1, trapSec, s0, n, MappedFrames(n, tf, ks, us, info), KernelStack(n));
    ghost var s4 := mc.S();
    PageSize(mc, info);
    FillFresh(mc, info, mc.mem[info], n + 1, trapSec, s0, n,
              MappedFrames(n, tf, ks, us, info)[ks := KernelStack(n)], RegionTable(n));
    ShapedStays(s0, s3, s4, n, FirstPages(s0.free, trapSec), 5);
    ShapedStays(s0, s4, mc.S(), n, FirstPages(s0.free, trapSec), 5);
    NewLeavesStay(s3, s4, n, tf, us, trapSec);
    NewLeavesStay(s4, mc.S(), n, tf, us, trapSec);
    OwnFrom(n, tf, ks, us, info);
  }

  lemma ImageStays(s0: State, s: State, n: nat, own: map<nat, Role>, f: nat)
    requires Fresh(s0, s, n, own) && f in s0.roles && f in s0.mem && s0.roles[f].Image?
    ensures f in s.roles && s.roles[f].Image? && f in s.mem
  {
    hide LeavesStay, NodesStay;
    assert f in s.roles.Keys && f in s.mem.Keys;
  }

  lemma PlainStays(s: State, s': State, f: nat, g: nat)
    requires FramesStay(s, s', {f}) && g != f && g in s.roles && g in s.mem && s.roles[g].Plain()
    ensures g in s'.roles && s'.roles[g] == s.roles[g] && g in s'.mem && s'.mem[g] == s.mem[g]
  {
    assert g in s'.roles.Keys && g in s'.mem.Keys;
  }

  lemma ImageNotFresh(s0: State, s: State, n: nat, own: map<nat, Role>, f: nat)
    requires Fresh(s0, s, n, own) && f in s.roles && s.roles[f].Image? && forall g :: g in own ==> !own[g].Image?
    ensures f !in own
  {
  }

  lemma ImageMay(s: State, trapSec: nat, pid: nat)
    requires trapSec in s.roles && s.roles[trapSec].Image?
    ensures MayLead(s, trapSec, pid, trapSec, trapSec, Image)
  {
  }

  lemma NoNewCode(s: State, n: nat, tf: nat, us: nat, trapSec: nat, v: nat)
    requires NewLeaves(s, n, tf, us, trapSec) && tf < PPN_LIMIT && us < PPN_LIMIT && trapSec < PPN_LIMIT
    requires us in s.roles && !s.roles[us].Code? && tf in s.roles && !s.roles[tf].Code?
    requires trapSec in s.roles && !s.roles[trapSec].Code?
    ensures !IsCodeLeaf(s, n, v)
  {
    hide LeafWord, LeafEntry, ProtToType, FrameOf, Valid;
    assert LeafWord(s, UserTree(n), v) == NewLeaf(tf, us, trapSec, v);
    ZeroIsInvalid();
    AddressOfFrame(us);
    AddressOfFrame(tf);
    AddressOfFrame(trapSec);
    EncodedLeaf(us * PAGE_SIZE, READ_WRITE, true);
    EncodedLeaf(tf * PAGE_SIZE, READ_WRITE, false);
    EncodedLeaf(trapSec * PAGE_SIZE, READ_EXEC, false);
  }

  lemma OldCodeStays(s0: State, s: State, spaces: seq<Space>, trapSec: nat, exhausted: bool, n: nat, pid: nat, v: nat)
    requires Inv(s0, spaces, trapSec, exhausted) && n == |spaces| && pid < n && Evolves(s0, s, n, {})
    ensures CodeOk(s, spaces, pid, v)
  {
    hide LeafWord, FrameOf, Valid, FramesStay, NodesStay, TreesOk, FreeOk, LeavesOwned, TreesOwned;
    assert SpaceOk(s0, spaces, pid) && CodeOk(s0, spaces, pid, v);
    assert LeafWord(s, UserTree(pid), v) == LeafWord(s0, UserTree(pid), v);
    assert s0.mem.Keys == s0.roles.Keys;
    CodeStays(s0, s, spaces, trapSec, n, pid, v);
  }

  lemma BirthKeepsOwners(s0: State, s: State, spaces: seq<Space>, child: Space, exhausted: bool, us: nat, f: nat)
    requires Fresh(s0, s, |spaces|, OwnFrames(|spaces|, child.trapframe, child.kernelStack, us, child.regionTable))
    requires child.trapframe !in {child.kernelStack, us, child.regionTable}
    requires child.kernelStack !in {us, child.regionTable} && us != child.regionTable
    requires f in s.roles && f in s0.mem && (f in s0.roles ==> OwnerOk(s0, spaces, exhausted, f))
    ensures OwnerOk(s, spaces + [child], exhausted, f)
  {
    hide LeavesStay, NodesStay;
  }

  /** A complete new process: its own frames, its three leaves, no code yet. */
  ghost predicate Born(s0: State, s: State, spaces: seq<Space>, child: Space, trapSec: nat, us: nat) {
    && FourFrames(s.mem, child.trapframe, child.kernelStack, us, child.regionTable)
    && Fresh(s0, s, |spaces|, OwnFrames(|spaces|, child.trapframe, child.kernelStack, us, child.regionTable))
    && NewLeaves(s, |spaces|, child.trapframe, us, trapSec) && STACK_VPN !in {child.trapframe, trapSec}
    && Root(UserTree(|spaces|)) in s.nodes && child.root == s.nodes[Root(UserTree(|spaces|))]
    && trapSec < PPN_LIMIT && trapSec in s.roles && s.roles[trapSec].Image?
    && RegionsOk(child.regions) && CodePages(child.regions) == {} && (|spaces| > 0 ==> child.parent < |spaces|)
    && |child.regions| >= 3 && child.regions[1].va == child.trapframe * PAGE_SIZE
    && child.regions[2].va == trapSec * PAGE_SIZE
  }

  /** The leaves of a new process are the way into the kernel. */
  lemma NewWayIn(s: State, child: Space, n: nat, us: nat, trapSec: nat)
    requires NewLeaves(s, n, child.trapframe, us, trapSec) && child.trapframe < PPN_LIMIT && trapSec < PPN_LIMIT
    requires child.trapframe != trapSec && trapSec in s.roles && s.roles[trapSec].Image?
    requires |child.regions| >= 3 && child.regions[1].va == child.trapframe * PAGE_SIZE
    requires child.regions[2].va == trapSec * PAGE_SIZE
    ensures WayIn(s, child, n)
  {
    hide LeafWord, LeafEntry, ProtToType, Valid, FrameOf, UserPage, Readable, Writable, Executable;
    AddressOfFrame(child.trapframe);
    AddressOfFrame(trapSec);
    EncodedLeaf(child.trapframe * PAGE_SIZE, READ_WRITE, false);
    EncodedLeaf(trapSec * PAGE_SIZE, READ_EXEC, false);
    assert LeafWord(s, UserTree(n), trapSec) == NewLeaf(child.trapframe, us, trapSec, trapSec);
    assert LeafWord(s, UserTree(n), child.trapframe) == NewLeaf(child.trapframe, us, trapSec, child.trapframe);
  }

  lemma BirthSpace(s0: State, s: State, spaces: seq<Space>, child: Space, trapSec: nat, us: nat, pid: nat)
    requires Born(s0, s, spaces, child, trapSec, us) && pid <= |spaces| && s0.mem.Keys == s0.roles.Keys
    requires pid < |spaces| ==> SpaceOk(s0, spaces, pid)
    requires child.trapframe < PPN_LIMIT
    ensures SpaceOk(s, spaces + [child], pid)
  {
    hide RegionsOk, NewLeaves, CodePages, Evolves, WayIn;
    if pid < |spaces| {
      SpaceStays(s0, s, spaces, pid, |spaces|);
    } else {
      NewWayIn(s, child, |spaces|, us, trapSec);
    }
  }

  lemma BirthCode(s0: State, s: State, spaces: seq<Space>, child: Space, trapSec: nat, exhausted: bool, us: nat,
                  pid: nat, v: nat)
    requires Inv(s0, spaces, trapSec, exhausted) && Born(s0, s, spaces, child, trapSec, us) && pid <= |spaces|
    ensures CodeOk(s, spaces + [child], pid, v)
  {
    hide Inv, RegionsOk, NewLeaves, CodePages, Evolves, IsCodeLeaf, LeafWord, FrameOf, Valid;
    if pid < |spaces| {
      OldCodeStays(s0, s, spaces, trapSec, exhausted, |spaces|, pid, v);
    } else {
      NoNewCode(s, |spaces|, child.trapframe, us, trapSec, v);
    }
  }

  /** A new process with its own frames and nothing shared keeps the invariant. */
  lemma BirthKeepsInv(s0: State, s: State, spaces: seq<Space>, child: Space, trapSec: nat, exhausted: bool, us: nat)
    requires Inv(s0, spaces, trapSec, exhausted) && Orderly(s, |spaces| + 1, trapSec)
    requires Born(s0, s, spaces, child, trapSec, us)
    ensures Inv(s, spaces + [child], trapSec, exhausted)
  {
    hide TreesOk, FreeOk, LeavesOwned, TreesOwned, SpaceOk, OwnerOk, CodeOk, Born;
    var spaces' := spaces + [child];
    assert s0.mem.Keys == s0.roles.Keys;
    BirthFrames(s0, s, spaces, child, trapSec, us);
    forall pid: nat | pid < |spaces'| ensures SpaceOk(s, spaces', pid) {
      assert pid < |spaces| ==> SpaceOk(s0, spaces, pid);
      BirthSpace(s0, s, spaces, child, trapSec, us, pid);
    }
    forall f | f in s.roles ensures OwnerOk(s, spaces', exhausted, f) {
      BirthFrame(s0, s, spaces, child, trapSec, us, f);
      assert OwnerOk(s0, spaces, exhausted, f);
      BirthKeepsOwners(s0, s, spaces, child, exhausted, us, f);
    }
    forall pid: nat, v: nat | pid < |spaces'| ensures CodeOk(s, spaces', pid, v) {
      BirthCode(s0, s, spaces, child, trapSec, exhausted, us, pid, v);
    }
  }

  lemma BirthFrames(s0: State, s: State, spaces: seq<Space>, child: Space, trapSec: nat, us: nat)
    requires Born(s0, s, spaces, child, trapSec, us) && Orderly(s, |spaces| + 1, trapSec)
    ensures child.trapframe < PPN_LIMIT
  {
    hide RegionsOk, NewLeaves, CodePages, Evolves, TreesOk, FreeOk, LeavesOwned, TreesOwned;
    assert child.trapframe in s.roles.Keys;
  }

  lemma BirthFrame(s0: State, s: State, spaces: seq<Space>, child: Space, trapSec: nat, us: nat, f: nat)
    requires Born(s0, s, spaces, child, trapSec, us) && f in s.roles && s0.mem.Keys == s0.roles.Keys
    ensures f in s0.roles && f in s0.mem
    ensures Fresh(s0, s, |spaces|, OwnFrames(|spaces|, child.trapframe, child.kernelStack, us, child.regionTable))
    ensures child.trapframe !in {child.kernelStack, us, child.regionTable}
    ensures child.kernelStack !in {us, child.regionTable} && us != child.regionTable
  {
    hide RegionsOk, NewLeaves, CodePages, LeavesStay, NodesStay;
    assert f in s.roles.Keys && f in s0.roles.Keys;
  }
}
