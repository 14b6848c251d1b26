/**
 Virtual address mapping (kernel/vmm.c): the table walk, mapping and unmapping of page
 ranges, and the kernel's own map.
 */
module Vmm {
  import opened Words
  import opened Sv39
  import opened Layout
  import opened Pmm

  /** What a walk returns: the place of the leaf word, null, or a panic. */
  datatype Walk = Halt | Null | Slot(frame: nat, index: nat)

  /** The index macro of one level. */
  function Px(level: nat, va: nat): nat {
    (if level == 0 then va / 4096 else if level == 1 then va / 2097152 else va / 1073741824) % 512
  }

  /** The walk without allocation, from a table of the given level. */
  function Descend(m: Memory, frame: nat, level: nat, va: nat): Walk
    decreases level
  {
    if level == 0 then Slot(frame, Px(0, va)) else
    var e := Entry(m, frame, Px(level, va));
    if Valid(e) then Descend(m, FrameOf(e), level - 1, va) else Null
  }

  /** The tables a walk for a page goes through below the directory. */
  function PathOf(t: Tree, vpn: nat): set<NodeId> {
    {NodeId(t, 1, vpn / 262144), NodeId(t, 0, vpn / 512)}
  }

  function OnPath(t: Tree, level: nat, vpn: nat): NodeId {
    if level == 2 then Root(t) else if level == 1 then NodeId(t, 1, vpn / 262144) else NodeId(t, 0, vpn / 512)
  }

  lemma PathLinks(t: Tree, level: nat, va: nat)
    requires 0 < level <= 2 && va < MAXVA
    ensures OnPath(t, level, va / PAGE_SIZE).Child(Px(level, va)) == OnPath(t, level - 1, va / PAGE_SIZE)
    ensures level == 2 ==> Px(level, va) < LOWER_HALF
  {
  }

  /** Take a page, clear it and hang it into an entry of an interior table. */
  method NewTable(mc: Machine, p: nat, index: nat, ghost id: NodeId) returns (pt: nat)
    requires mc.Valid() && id in mc.nodes && p == mc.nodes[id] && id.level > 0 && index < ENTRIES
    requires id.Child(index) !in mc.nodes && (id.level == 2 ==> index < LOWER_HALF)
    modifies mc
    ensures mc.Valid() && mc.startAddr == old(mc.startAddr) && mc.endAddr == old(mc.endAddr)
    ensures pt == 0 <==> old(mc.free) == []
    ensures pt == 0 ==> mc.S() == old(mc.S())
    ensures pt != 0 ==> pt == old(mc.free)[0] * PAGE_SIZE && mc.S() == AddTable(old(mc.S()), id, index)
  {
    hide TreesOk, FreeOk, PointerTo;
    ghost var s := mc.S();
    pt := mc.AllocPage();
    if pt != 0 {
      TakeThenLink(s, id, index);
      var f := pt / PAGE_SIZE;
      mc.mem := mc.mem[f := Zeros()][p := Put(mc.mem[p], index, PointerTo(f))];
      mc.roles, mc.nodes := mc.roles[f := Table(id.Child(index))], mc.nodes[id.Child(index) := f];
      AddTableWell(s, id, index);
    }
  }

  /** One level of the walk: follow the entry, or build the table it should point to. */
  method WalkLevel(mc: Machine, p: nat, level: nat, va: nat, alloc: bool, ghost t: Tree,
                   ghost s0: State, ghost added: set<NodeId>)
      returns (pt: nat, ghost added': set<NodeId>)
    requires mc.Valid() && 0 < level <= 2 && va < MAXVA
    requires OnPath(t, level, va / PAGE_SIZE) in mc.nodes && p == mc.nodes[OnPath(t, level, va / PAGE_SIZE)]
    requires Grown(s0, mc.S(), added)
    modifies mc
    ensures mc.Valid() && mc.startAddr == old(mc.startAddr) && mc.endAddr == old(mc.endAddr)
    ensures Grown(s0, mc.S(), added') && added' <= added + {OnPath(t, level - 1, va / PAGE_SIZE)}
    ensures pt == 0 <==> OnPath(t, level - 1, va / PAGE_SIZE) !in mc.nodes
    ensures pt != 0 ==> pt == mc.nodes[OnPath(t, level - 1, va / PAGE_SIZE)] * PAGE_SIZE
    ensures pt == 0 && alloc ==> mc.free == []
    ensures !alloc ==> mc.S() == old(mc.S())
  {
    hide FreeOk, SameLeaves, PlainKept, TablesAdded;
    added' := added;
    ghost var s, id := mc.S(), OnPath(t, level, va / PAGE_SIZE);
    PathLinks(t, level, va);
    var index := Px(level, va);
    assert IdOk(s, id) && LinkOk(s, id, index);
    var e := mc.mem[p][index];
    if Valid(e) {
      assert IdOk(s, id.Child(index));
      pt := ToAddress(e);
    } else {
      pt := 0;
      if alloc {
        pt := NewTable(mc, p, index, id);
        if pt != 0 {
          AddTableGrows(s, id, index);
          GrownTrans(s0, s, mc.S(), added, {id.Child(index)});
          added' := added + {id.Child(index)};
        }
      }
    }
  }

  lemma NothingGrown(s: State)
    ensures Grown(s, s, {})
  {
  }

  /** Find, and when `alloc` asks for it build, the table that holds the leaf word of va. */
  method PageWalk(mc: Machine, root: nat, va: nat, alloc: bool, ghost t: Tree)
      returns (r: Walk, ghost added: set<NodeId>)
    requires mc.Valid() && Root(t) in mc.nodes && root == mc.nodes[Root(t)] * PAGE_SIZE
    modifies mc
    ensures mc.Valid() && mc.startAddr == old(mc.startAddr) && mc.endAddr == old(mc.endAddr)
    ensures Grown(old(mc.S()), mc.S(), added) && added <= PathOf(t, va / PAGE_SIZE)
    ensures r.Halt? <==> va >= MAXVA
    ensures r.Slot? <==> va < MAXVA && NodeId(t, 0, va / PAGE_SIZE / ENTRIES) in mc.nodes
    ensures r.Slot? ==>
      && r.frame == mc.nodes[NodeId(t, 0, va / PAGE_SIZE / ENTRIES)]
      && r.index == va / PAGE_SIZE % ENTRIES
    ensures r.Null? && alloc ==> mc.free == []
    ensures !alloc ==> mc.S() == old(mc.S())
  {
    hide Well, Grown;
    added := {};
    if va >= MAXVA {
      NothingGrown(mc.S());
      return Halt, added;
    }
    ghost var s0, vpn := mc.S(), va / PAGE_SIZE;
    NothingGrown(s0);
    var pt := root;
    var level := 2;
    while level > 0
      invariant 0 <= level <= 2
      invariant mc.Valid() && mc.startAddr == old(mc.startAddr) && mc.endAddr == old(mc.endAddr)
      invariant OnPath(t, level, vpn) in mc.nodes && pt == mc.nodes[OnPath(t, level, vpn)] * PAGE_SIZE
      invariant Grown(s0, mc.S(), added) && added <= PathOf(t, vpn)
      invariant !alloc ==> mc.S() == s0
    {
      pt, added := WalkLevel(mc, pt / PAGE_SIZE, level, va, alloc, t, s0, added);
      if pt == 0 {
        if OnPath(t, 0, vpn) in mc.nodes { LowNeedsMid(mc.S(), t, vpn); }
        return Null, added;
      }
      level := level - 1;
    }
    r := Slot(pt / PAGE_SIZE, Px(0, va));
  }

  lemma LowNeedsMid(s: State, t: Tree, vpn: nat)
    requires Well(s) && OnPath(t, 0, vpn) in s.nodes
    ensures OnPath(t, 1, vpn) in s.nodes
  {
    assert IdOk(s, OnPath(t, 0, vpn));
  }

  // ---- mapping a range ----

  /** Pages lo .. lo+n-1 of tree t got the successive frames from pa; every other leaf of every tree is as before. */
  ghost predicate LeavesSet(s: State, s': State, t: Tree, lo: nat, n: nat, pa: nat, perm: nat) {
    forall t', v: nat ::
      LeafWord(s', t', v) ==
      if t' == t && lo <= v < lo + n then LeafEntry(Wrap(pa + PAGE_SIZE * (v - lo)), perm) else LeafWord(s, t', v)
  }

  ghost predicate RangeMapped(s: State, s': State, t: Tree, lo: nat, n: nat, pa: nat, perm: nat, added: set<NodeId>) {
    && LeavesSet(s, s', t, lo, n, pa, perm) && PlainKept(s, s') && TablesAdded(s, s', added)
    && (forall id :: id in added ==> id.tree == t)
  }

  /** The tables below the directory that serve pages lo .. lo+n-1. */
  ghost function TablesFor(t: Tree, lo: nat, n: nat): set<NodeId> {
    if n == 0 then {} else TablesFor(t, lo, n - 1) + PathOf(t, lo + n - 1)
  }

  ghost function Missing(s: State, t: Tree, lo: nat, n: nat): set<NodeId> {
    TablesFor(t, lo, n) - s.nodes.Keys
  }

  ghost predicate NoneMapped(s: State, t: Tree, lo: nat, n: nat) {
    forall v: nat :: lo <= v < lo + n ==> !Mapped(s, t, v)
  }

  lemma SetLeafMaps(s: State, s1: State, added: set<NodeId>, t: Tree, vpn: nat, pa: nat, perm: nat)
    requires Grown(s, s1, added) && Well(s1) && NodeId(t, 0, vpn / ENTRIES) in s1.nodes && pa < WORD_LIMIT
    requires added <= PathOf(t, vpn)
    ensures RangeMapped(s, SetLeaf(s1, t, vpn, LeafEntry(pa, perm)), t, vpn, 1, pa, perm, added)
  {
    hide Well, PlainKept, SameLeaves, LeafEntry, LeafChanged, LeavesSet;
    var s2 := SetLeaf(s1, t, vpn, LeafEntry(pa, perm));
    SetLeafWell(s1, t, vpn, LeafEntry(pa, perm));
    SetLeafChanges(s1, t, vpn, LeafEntry(pa, perm));
    OneLeafSet(s, s1, s2, t, vpn, pa, perm);
    PlainKeptTrans(s, s1, s2);
  }

  lemma OneLeafSet(s: State, s1: State, s2: State, t: Tree, vpn: nat, pa: nat, perm: nat)
    requires SameLeaves(s, s1) && LeafChanged(s1, s2, t, vpn, LeafEntry(pa, perm)) && pa < WORD_LIMIT
    ensures LeavesSet(s, s2, t, vpn, 1, pa, perm)
  {
    hide LeafWord, LeafEntry;
  }

  /** Map one page: walk, refuse a valid entry, store the word. */
  method MapPage(mc: Machine, root: nat, va: nat, pa: nat, perm: nat, ghost t: Tree)
      returns (r: Outcome, ghost added: set<NodeId>)
    requires mc.Valid() && Root(t) in mc.nodes && root == mc.nodes[Root(t)] * PAGE_SIZE && pa < WORD_LIMIT
    modifies mc
    ensures mc.Valid() && mc.startAddr == old(mc.startAddr) && mc.endAddr == old(mc.endAddr)
    ensures r.Halted? <==> va >= MAXVA || Mapped(old(mc.S()), t, va / PAGE_SIZE)
    ensures !r.Done? ==> Grown(old(mc.S()), mc.S(), added) && added <= PathOf(t, va / PAGE_SIZE)
    ensures r.Failed? ==> mc.free == [] && NodeId(t, 0, va / PAGE_SIZE / ENTRIES) !in mc.nodes
    ensures r.Done? ==>
      && added == PathOf(t, va / PAGE_SIZE) - old(mc.nodes.Keys)
      && RangeMapped(old(mc.S()), mc.S(), t, va / PAGE_SIZE, 1, pa, perm, added)
  {
    hide Well, SameLeaves, PlainKept, LeafEntry, RangeMapped;
    ghost var s, vpn := mc.S(), va / PAGE_SIZE;
    var w;
    w, added := PageWalk(mc, root, va, true, t);
    match w {
      case Halt => return Halted, added;
      case Null => UnservedIsUnmapped(s, mc.S(), added, t, vpn); return Failed, added;
      case Slot(frame, index) =>
        ghost var s1 := mc.S();
        SlotReads(s1, t, vpn);
        LeafUnchanged(s, s1, t, vpn);
        if Valid(mc.mem[frame][index]) {
          return Halted, added;
        }
        mc.mem := mc.mem[frame := Put(mc.mem[frame], index, LeafEntry(pa, perm))];
        assert mc.S() == SetLeaf(s1, t, vpn, LeafEntry(pa, perm));
        SetLeafWell(s1, t, vpn, LeafEntry(pa, perm));
        SetLeafMaps(s, s1, added, t, vpn, pa, perm);
        LowNeedsMid(s1, t, vpn);
        return Done, added;
    }
  }

  lemma SlotReads(s: State, t: Tree, vpn: nat)
    requires Well(s) && NodeId(t, 0, vpn / ENTRIES) in s.nodes
    ensures s.nodes[NodeId(t, 0, vpn / ENTRIES)] in s.mem
    ensures |s.mem[s.nodes[NodeId(t, 0, vpn / ENTRIES)]]| == ENTRIES
    ensures LeafWord(s, t, vpn) == s.mem[s.nodes[NodeId(t, 0, vpn / ENTRIES)]][vpn % ENTRIES]
  {
    assert IdOk(s, NodeId(t, 0, vpn / ENTRIES));
  }

  lemma LeafUnchanged(s: State, s': State, t: Tree, vpn: nat)
    requires SameLeaves(s, s')
    ensures LeafWord(s', t, vpn) == LeafWord(s, t, vpn)
  {
  }

  lemma UnservedIsUnmapped(s: State, s': State, added: set<NodeId>, t: Tree, vpn: nat)
    requires Grown(s, s', added) && NodeId(t, 0, vpn / ENTRIES) !in s'.nodes
    ensures !Mapped(s, t, vpn)
  {
  }

  lemma LeavesSetNext(s: State, s1: State, s2: State, t: Tree, lo: nat, n: nat, pa: nat, perm: nat)
    requires LeavesSet(s, s1, t, lo, n, pa, perm)
    requires LeavesSet(s1, s2, t, lo + n, 1, Wrap(pa + PAGE_SIZE * n), perm)
    ensures LeavesSet(s, s2, t, lo, n + 1, pa, perm)
  {
    hide LeafWord, LeafEntry;
    forall t', v: nat
      ensures LeafWord(s2, t', v) ==
        if t' == t && lo <= v < lo + n + 1 then LeafEntry(Wrap(pa + PAGE_SIZE * (v - lo)), perm)
        else LeafWord(s, t', v)
    {
      if v == lo + n {
        assert Wrap(Wrap(pa + PAGE_SIZE * n) + PAGE_SIZE * (v - (lo + n))) == Wrap(pa + PAGE_SIZE * (v - lo));
      }
      assert LeafWord(s1, t', v) == LeafWord(s1, t', v);
    }
  }

  lemma RangeNext(s: State, s1: State, s2: State, t: Tree, lo: nat, n: nat, pa: nat, perm: nat,
                  a: set<NodeId>, b: set<NodeId>)
    requires RangeMapped(s, s1, t, lo, n, pa, perm, a)
    requires RangeMapped(s1, s2, t, lo + n, 1, Wrap(pa + PAGE_SIZE * n), perm, b)
    ensures RangeMapped(s, s2, t, lo, n + 1, pa, perm, a + b)
  {
    hide LeavesSet, PlainKept, TablesAdded;
    LeavesSetNext(s, s1, s2, t, lo, n, pa, perm);
    PlainKeptTrans(s, s1, s2);
    TablesAddedTrans(s, s1, s2, a, b);
  }

  lemma RangeThenGrown(s: State, s1: State, s2: State, t: Tree, lo: nat, n: nat, pa: nat, perm: nat,
                       a: set<NodeId>, b: set<NodeId>)
    requires RangeMapped(s, s1, t, lo, n, pa, perm, a) && Grown(s1, s2, b)
    requires forall id :: id in b ==> id.tree == t
    ensures RangeMapped(s, s2, t, lo, n, pa, perm, a + b)
  {
    hide LeafWord, LeafEntry, PlainKept, TablesAdded;
    PlainKeptTrans(s, s1, s2);
    TablesAddedTrans(s, s1, s2, a, b);
  }

  lemma NothingMapped(s: State, t: Tree, lo: nat, pa: nat, perm: nat)
    ensures MappedSoFar(s, s, t, lo, 0, pa, perm, {})
  {
  }

  lemma {:induction false} TablesForGrows(t: Tree, lo: nat, n: nat, m: nat)
    requires n <= m
    ensures TablesFor(t, lo, n) <= TablesFor(t, lo, m)
    decreases m
  {
    if n < m { TablesForGrows(t, lo, n, m - 1); }
  }

  lemma MissingGrows(s: State, t: Tree, lo: nat, n: nat, m: nat)
    requires n < m
    ensures Missing(s, t, lo, n + 1) <= Missing(s, t, lo, m)
    ensures NodeId(t, 0, (lo + n) / ENTRIES) in s.nodes || NodeId(t, 0, (lo + n) / ENTRIES) in Missing(s, t, lo, m)
  {
    TablesForGrows(t, lo, n + 1, m);
    assert NodeId(t, 0, (lo + n) / ENTRIES) in PathOf(t, lo + n);
  }

  /** A walk that fails with an empty list shows that the missing tables outnumber the free frames. */
  lemma TooFewFrames(s: State, s': State, t: Tree, lo: nat, n: nat, m: nat, added: set<NodeId>)
    requires TablesAdded(s, s', added) && s'.free == [] && n < m
    requires added <= Missing(s, t, lo, n + 1)
    requires NodeId(t, 0, (lo + n) / ENTRIES) !in s'.nodes
    ensures |Missing(s, t, lo, m)| > |s.free|
  {
    hide Missing;
    MissingGrows(s, t, lo, n, m);
    var low := NodeId(t, 0, (lo + n) / ENTRIES);
    assert low !in added;
    SubsetSize(added + {low}, Missing(s, t, lo, m));
  }

  lemma MissingNext(s: State, t: Tree, lo: nat, n: nat, keys: set<NodeId>)
    requires keys == s.nodes.Keys + Missing(s, t, lo, n)
    ensures Missing(s, t, lo, n) + (PathOf(t, lo + n) - keys) == Missing(s, t, lo, n + 1)
  {
    hide PathOf;
    assert TablesFor(t, lo, n + 1) == TablesFor(t, lo, n) + PathOf(t, lo + n);
  }

  lemma SubsetSize(a: set<NodeId>, b: set<NodeId>)
    requires a <= b
    ensures |a| <= |b|
  {
    assert b == a + (b - a);
  }

  /** The number of pages of [va, va+size) as map_pages counts them. */
  function PageCount(va: nat, size: nat): nat {
    var lo, hi := va / PAGE_SIZE, Wrap(va + size - 1) / PAGE_SIZE;
    if lo <= hi then hi - lo + 1 else 0
  }

  /** Addresses the walker accepts, none of them mapped yet. */
  ghost predicate Vacant(s: State, t: Tree, lo: nat, n: nat) {
    (n > 0 ==> lo + n <= MAXVPN) && NoneMapped(s, t, lo, n)
  }

  /** What mapping a range needs: vacant pages, and a frame for each missing table. */
  ghost predicate CanMap(s: State, t: Tree, lo: nat, n: nat) {
    Vacant(s, t, lo, n) && |Missing(s, t, lo, n)| <= |s.free|
  }

  lemma RootStays(s: State, s': State, t: Tree, lo: nat, n: nat, pa: nat, perm: nat, added: set<NodeId>)
    requires RangeMapped(s, s', t, lo, n, pa, perm, added)
    ensures forall id :: id in s.nodes ==> id in s'.nodes && s'.nodes[id] == s.nodes[id]
  {
    hide LeavesSet, PlainKept;
  }

  lemma SameOutside(s: State, s': State, t: Tree, lo: nat, n: nat, pa: nat, perm: nat, v: nat)
    requires LeavesSet(s, s', t, lo, n, pa, perm) && !(lo <= v < lo + n)
    ensures Mapped(s', t, v) == Mapped(s, t, v)
  {
  }

  lemma MapStepDone(s: State, s1: State, s2: State, t: Tree, lo: nat, n: nat, pa: nat, perm: nat,
                    a: set<NodeId>, b: set<NodeId>)
    requires RangeMapped(s, s1, t, lo, n, pa, perm, a) && a == Missing(s, t, lo, n) && NoneMapped(s, t, lo, n)
    requires RangeMapped(s1, s2, t, lo + n, 1, Wrap(pa + PAGE_SIZE * n), perm, b)
    requires b == PathOf(t, lo + n) - s1.nodes.Keys && !Mapped(s1, t, lo + n)
    ensures RangeMapped(s, s2, t, lo, n + 1, pa, perm, a + b)
    ensures a + b == Missing(s, t, lo, n + 1) && NoneMapped(s, t, lo, n + 1) && |a + b| <= |s.free|
  {
    hide LeavesSet, PlainKept, Mapped, Missing, PathOf;
    MissingNext(s, t, lo, n, s1.nodes.Keys);
    RangeNext(s, s1, s2, t, lo, n, pa, perm, a, b);
    SameOutside(s, s1, t, lo, n, pa, perm, lo + n);
  }

  lemma MapStepFails(s: State, s1: State, s2: State, t: Tree, lo: nat, n: nat, count: nat, pa: nat, perm: nat,
                     a: set<NodeId>, b: set<NodeId>)
    requires RangeMapped(s, s1, t, lo, n, pa, perm, a) && a == Missing(s, t, lo, n) && n < count
    requires Grown(s1, s2, b) && b <= PathOf(t, lo + n)
    requires lo + n >= MAXVPN || Mapped(s1, t, lo + n)
      || (s2.free == [] && NodeId(t, 0, (lo + n) / ENTRIES) !in s2.nodes)
    ensures RangeMapped(s, s2, t, lo, n, pa, perm, a + b) && !CanMap(s, t, lo, count)
    ensures lo + n >= MAXVPN || Mapped(s1, t, lo + n) ==> !Vacant(s, t, lo, count)
  {
    hide LeavesSet, PlainKept, Mapped, SameLeaves, Missing, TablesAdded;
    RangeThenGrown(s, s1, s2, t, lo, n, pa, perm, a, b);
    if lo + n < MAXVPN {
      if Mapped(s1, t, lo + n) {
        SameOutside(s, s1, t, lo, n, pa, perm, lo + n);
        assert !NoneMapped(s, t, lo, count);
      } else {
        AddedAreMissing(s, s1, s2, t, lo, n, a, b);
        TooFewFrames(s, s2, t, lo, n, count, a + b);
      }
    }
  }

  /** A page for which only a table is lacking is vacant like those before it. */
  lemma StillVacant(s: State, s1: State, t: Tree, lo: nat, n: nat, pa: nat, perm: nat, a: set<NodeId>)
    requires RangeMapped(s, s1, t, lo, n, pa, perm, a) && NoneMapped(s, t, lo, n)
    requires lo + n < MAXVPN && !Mapped(s1, t, lo + n)
    ensures Vacant(s, t, lo, n + 1)
  {
    hide LeavesSet, PlainKept, Mapped, TablesAdded;
    SameOutside(s, s1, t, lo, n, pa, perm, lo + n);
  }

  lemma AddedAreMissing(s: State, s1: State, s2: State, t: Tree, lo: nat, n: nat, a: set<NodeId>, b: set<NodeId>)
    requires TablesAdded(s, s1, a) && a == Missing(s, t, lo, n)
    requires TablesAdded(s1, s2, b) && b <= PathOf(t, lo + n)
    ensures a + b <= Missing(s, t, lo, n + 1)
  {
    hide Missing, PathOf;
    MissingNext(s, t, lo, n, s1.nodes.Keys);
  }

  /** What the loop of map_pages knows after n pages. */
  ghost predicate MappedSoFar(s: State, s': State, t: Tree, lo: nat, n: nat, pa: nat, perm: nat, added: set<NodeId>) {
    && (n > 0 ==> lo + n <= MAXVPN)
    && RangeMapped(s, s', t, lo, n, pa, perm, added) && added == Missing(s, t, lo, n)
    && NoneMapped(s, t, lo, n) && |added| <= |s.free|
  }

  /** One more page of a range. */
  method MapNext(mc: Machine, root: nat, first: nat, p: nat, perm: nat, ghost t: Tree,
                 ghost s: State, ghost lo: nat, ghost n: nat, ghost count: nat, ghost pa: nat, ghost a: set<NodeId>)
      returns (r: Outcome, ghost added: set<NodeId>)
    requires mc.Valid() && MappedSoFar(s, mc.S(), t, lo, n, pa, perm, a) && n < count
    requires Root(t) in s.nodes && root == s.nodes[Root(t)] * PAGE_SIZE
    requires first == (lo + n) * PAGE_SIZE && p == Wrap(pa + PAGE_SIZE * n) && p < WORD_LIMIT
    modifies mc
    ensures mc.Valid() && mc.startAddr == old(mc.startAddr) && mc.endAddr == old(mc.endAddr)
    ensures r.Done? ==> MappedSoFar(s, mc.S(), t, lo, n + 1, pa, perm, added)
    ensures !r.Done? ==> RangeMapped(s, mc.S(), t, lo, n, pa, perm, added) && !CanMap(s, t, lo, count)
    ensures r.Failed? ==> mc.free == [] && Vacant(s, t, lo, n + 1)
    ensures r.Halted? ==> !Vacant(s, t, lo, count)
  {
    hide Machine.Valid, RangeMapped, Grown, Mapped, NoneMapped, Missing, Wrap, CanMap, Vacant;
    ghost var s1 := mc.S();
    RootStays(s, s1, t, lo, n, pa, perm, a);
    assert first / PAGE_SIZE == lo + n;
    r, added := MapPage(mc, root, first, p, perm, t);
    if r.Done? {
      MapStepDone(s, s1, mc.S(), t, lo, n, pa, perm, a, added);
    } else {
      MapStepFails(s, s1, mc.S(), t, lo, n, count, pa, perm, a, added);
      if r.Failed? { StillVacant(s, s1, t, lo, n, pa, perm, a); }
    }
    added := a + added;
  }

  /** Map the pages of [va, va+size) to the pages from pa on. */
  method MapPages(mc: Machine, root: nat, va: nat, size: nat, pa: nat, perm: nat, ghost t: Tree)
      returns (r: Outcome, ghost n: nat, ghost added: set<NodeId>)
    requires mc.Valid() && Root(t) in mc.nodes && root == mc.nodes[Root(t)] * PAGE_SIZE
    requires va < WORD_LIMIT && size < WORD_LIMIT && pa < WORD_LIMIT
    modifies mc
    ensures mc.Valid() && mc.startAddr == old(mc.startAddr) && mc.endAddr == old(mc.endAddr)
    ensures RangeMapped(old(mc.S()), mc.S(), t, va / PAGE_SIZE, n, pa, perm, added)
    ensures if r.Done? then n == PageCount(va, size) else n < PageCount(va, size)
    ensures r.Done? <==> CanMap(old(mc.S()), t, va / PAGE_SIZE, PageCount(va, size))
    ensures r.Done? ==> added == Missing(old(mc.S()), t, va / PAGE_SIZE, n)
    ensures r.Failed? ==> mc.free == [] && Vacant(old(mc.S()), t, va / PAGE_SIZE, n + 1)
    ensures r.Halted? ==> !Vacant(old(mc.S()), t, va / PAGE_SIZE, PageCount(va, size))
  {
    hide Machine.Valid, RangeMapped, MappedSoFar, Missing, Wrap, CanMap, Vacant;
    ghost var s, lo, count := mc.S(), va / PAGE_SIZE, PageCount(va, size);
    var first, last, p := RoundDown(va), RoundDown(Wrap(va + size - 1)), pa;
    n, added := 0, {};
    NothingMapped(s, t, lo, pa, perm);
    WrapFacts(pa, 0);
    while first <= last
      invariant mc.Valid() && mc.startAddr == old(mc.startAddr) && mc.endAddr == old(mc.endAddr)
      invariant n <= count && first == (lo + n) * PAGE_SIZE && p == Wrap(pa + PAGE_SIZE * n) && p < WORD_LIMIT
      invariant MappedSoFar(s, mc.S(), t, lo, n, pa, perm, added)
      decreases count - n
    {
      r, added := MapNext(mc, root, first, p, perm, t, s, lo, n, count, pa, added);
      if !r.Done? {
        return;
      }
      WrapFacts(pa, n);
      first, p, n := first + PAGE_SIZE, Wrap(p + PAGE_SIZE), n + 1;
    }
    assert n == count;
    Mappable(s, mc.S(), t, lo, n, pa, perm, added);
    r := Done;
  }

  lemma WrapFacts(pa: nat, n: nat)
    requires pa < WORD_LIMIT
    ensures Wrap(pa) == pa && Wrap(pa + PAGE_SIZE * n) < WORD_LIMIT
    ensures Wrap(Wrap(pa + PAGE_SIZE * n) + PAGE_SIZE) == Wrap(pa + PAGE_SIZE * (n + 1)) < WORD_LIMIT
  {
  }

  lemma Mappable(s: State, s': State, t: Tree, lo: nat, n: nat, pa: nat, perm: nat, added: set<NodeId>)
    requires MappedSoFar(s, s', t, lo, n, pa, perm, added)
    ensures RangeMapped(s, s', t, lo, n, pa, perm, added) && added == Missing(s, t, lo, n) && CanMap(s, t, lo, n)
  {
    hide RangeMapped, Missing, NoneMapped;
  }

  /** kern_vm_map and user_vm_map: a mapping that must succeed. */
  method VmMap(mc: Machine, root: nat, va: nat, pa: nat, size: nat, perm: nat, ghost t: Tree)
      returns (r: Outcome, ghost n: nat, ghost added: set<NodeId>)
    requires mc.Valid() && Root(t) in mc.nodes && root == mc.nodes[Root(t)] * PAGE_SIZE
    requires va < WORD_LIMIT && size < WORD_LIMIT && pa < WORD_LIMIT
    modifies mc
    ensures mc.Valid() && mc.startAddr == old(mc.startAddr) && mc.endAddr == old(mc.endAddr)
    ensures r.Done? || r.Halted?
    ensures r.Done? <==> CanMap(old(mc.S()), t, va / PAGE_SIZE, PageCount(va, size))
    ensures r.Done? ==> n == PageCount(va, size) && added == Missing(old(mc.S()), t, va / PAGE_SIZE, n)
    ensures r.Done? ==> RangeMapped(old(mc.S()), mc.S(), t, va / PAGE_SIZE, n, pa, perm, added)
  {
    hide Machine.Valid, RangeMapped, CanMap, Missing;
    r, n, added := MapPages(mc, root, va, size, pa, perm, t);
    if r.Failed? {
      r := Halted;
    }
  }

  // ---- taking a page back ----

  /** The valid bit, flipped. */
  function Toggle(w: nat): nat {
    if Valid(w) then w - 1 else w + 1
  }

  /** The page's frame pushed on the free list, whatever it is used for, and the valid bit of its entry flipped. */
  ghost function Unmapped(s: State, t: Tree, v: nat): State
    requires NodeId(t, 0, v / ENTRIES) in s.nodes
    requires (forall f :: f in s.mem ==> |s.mem[f]| == ENTRIES) && s.nodes[NodeId(t, 0, v / ENTRIES)] in s.mem
    requires FrameOf(LeafWord(s, t, v)) in s.mem
  {
    var p, i := s.nodes[NodeId(t, 0, v / ENTRIES)], v % ENTRIES;
    var s1 := Give(s, FrameOf(LeafWord(s, t, v)));
    s1.(mem := s1.mem[p := Put(s1.mem[p], i, Toggle(s1.mem[p][i]))])
  }

  /** user_vm_unmap: it does not ask whether the page is mapped, nor for what. */
  method UserVmUnmap(mc: Machine, root: nat, va: nat, ghost t: Tree) returns (r: Outcome)
    requires mc.Valid() && Root(t) in mc.nodes && root == mc.nodes[Root(t)] * PAGE_SIZE
    modifies mc
    ensures mc.Backed() && mc.startAddr == old(mc.startAddr) && mc.endAddr == old(mc.endAddr)
    ensures mc.mem.Keys == old(mc.mem.Keys)
    ensures r.Done? || r.Halted?
    ensures r.Halted? <==>
      || va >= MAXVA || NodeId(t, 0, va / PAGE_SIZE / ENTRIES) !in old(mc.nodes) || va % PAGE_SIZE != 0
      || !(mc.startAddr <= ToAddress(LeafWord(old(mc.S()), t, va / PAGE_SIZE)) < mc.endAddr)
    ensures r.Done? ==>
      && old(mc.nodes[NodeId(t, 0, va / PAGE_SIZE / ENTRIES)]) in old(mc.mem)
      && FrameOf(LeafWord(old(mc.S()), t, va / PAGE_SIZE)) in old(mc.mem)
      && mc.S() == Unmapped(old(mc.S()), t, va / PAGE_SIZE)
  {
    hide TreesOk, FreeOk, FrameOf, Grown;
    var w;
    ghost var added;
    w, added := PageWalk(mc, root, va, false, t);
    match w {
      case Halt => return Halted;
      case Null => return Halted;
      case Slot(frame, index) =>
        ghost var s, vpn := mc.S(), va / PAGE_SIZE;
        SlotReads(s, t, vpn);
        var pa := ToAddress(mc.mem[frame][index]) + va % PAGE_SIZE;
        OffsetFacts(FrameOf(LeafWord(s, t, vpn)), va % PAGE_SIZE);
        r := mc.FreePage(pa);
        if r.Done? {
          mc.mem := mc.mem[frame := Put(mc.mem[frame], index, Toggle(mc.mem[frame][index]))];
        }
    }
  }

  lemma OffsetFacts(f: nat, off: nat)
    requires off < PAGE_SIZE
    ensures (f * PAGE_SIZE + off) % PAGE_SIZE == off && (f * PAGE_SIZE + off) / PAGE_SIZE == f
  {
  }

  /** On a mapped page of a plain frame, unmapping is the release of the frame and an invalid leaf. */
  lemma UnmapPlain(s: State, t: Tree, v: nat)
    requires Well(s) && NodeId(t, 0, v / ENTRIES) in s.nodes
    requires Valid(LeafWord(s, t, v)) && FrameOf(LeafWord(s, t, v)) in s.roles
    requires s.roles[FrameOf(LeafWord(s, t, v))].Plain()
    ensures s.nodes[NodeId(t, 0, v / ENTRIES)] in s.mem
    ensures var w, s' := LeafWord(s, t, v), Unmapped(s, t, v);
      && Well(s') && LeafChanged(s, s', t, v, w - 1) && !Valid(w - 1)
      && s'.nodes == s.nodes && s'.roles == s.roles[FrameOf(w) := Free] && s'.free == [FrameOf(w)] + s.free
  {
    hide TreesOk, FreeOk, FrameOf;
    var w := LeafWord(s, t, v);
    var f := FrameOf(w);
    SlotReads(s, t, v);
    TableRole(s, NodeId(t, 0, v / ENTRIES));
    GiveWell(s, f);
    var s1 := Give(s, f);
    assert Unmapped(s, t, v) == SetLeaf(s1, t, v, w - 1);
    SetLeafWell(s1, t, v, w - 1);
    SetLeafChanges(s1, t, v, w - 1);
    LeafChangedAfter(s, s1, SetLeaf(s1, t, v, w - 1), t, v, w - 1);
  }

  lemma TableRole(s: State, id: NodeId)
    requires Well(s) && id in s.nodes
    ensures s.nodes[id] in s.roles && s.roles[s.nodes[id]] == Table(id)
  {
    assert IdOk(s, id);
  }

  lemma LeafChangedAfter(s: State, s1: State, s2: State, t: Tree, v: nat, w: nat)
    requires SameLeaves(s, s1) && LeafChanged(s1, s2, t, v, w)
    ensures LeafChanged(s, s2, t, v, w)
  {
    hide LeafWord;
  }
}
