/**
 Physical memory, the free list threaded through it and the page tables stored in it,
 as values.  A state pairs the raw words with a description of who uses each frame;
 `Well` says that the description is true of the words.
 */
module Layout {
  import opened Words
  import opened Sv39

  type Page = seq<nat>
  type Memory = map<nat, Page>

  function Put(page: Page, i: nat, w: nat): Page
    requires i < |page|
  {
    page[i := w]
  }

  datatype Tree = KernelTree | UserTree(pid: nat)

  /**
   A table of a tree: level 2 is the page directory, level 0 holds leaves.  Entry i of
   table k leads to table 512k+i one level down, so table k of level 0 serves the pages
   512k .. 512k+511.
   */
  datatype NodeId = NodeId(tree: Tree, level: nat, k: nat) {
    function Child(i: nat): NodeId
      requires level > 0
    {
      NodeId(tree, level - 1, ENTRIES * k + i)
    }

    function Parent(): NodeId {
      NodeId(tree, level + 1, k / ENTRIES)
    }
  }

  function Root(t: Tree): NodeId { NodeId(t, 2, 0) }

  datatype Role =
    | Free
    | Table(id: NodeId)
    | Trapframe(pid: nat)
    | KernelStack(pid: nat)
    | RegionTable(pid: nat)
    | Private(pid: nat, vpn: nat)
    | Code(vpn: nat)
    | Image
    | Taken
    | Lost
  {
    /** Frames whose words the allocator and the walker never look at. */
    predicate Plain() {
      !Free? && !Table?
    }
  }

  datatype State = State(
    mem: Memory,
    head: nat,
    free: seq<nat>,
    roles: map<nat, Role>,
    nodes: map<NodeId, nat>)

  /** Frame numbers that fit the page-number field of an Sv39 entry. */
  const PPN_LIMIT: nat := 0x1000_0000_0000

  ghost predicate PagesOk(s: State) {
    && s.roles.Keys == s.mem.Keys
    && (forall f :: f in s.mem ==> 0 < f < PPN_LIMIT)
    && (forall f :: f in s.mem ==> |s.mem[f]| == ENTRIES)
  }

  /** The address stored before element i of a list: that of its frame, or null at the end. */
  function Link(free: seq<nat>, i: nat): nat {
    if i < |free| then free[i] * PAGE_SIZE else 0
  }

  ghost predicate Distinct(free: seq<nat>) {
    forall i, j :: 0 <= i < j < |free| ==> free[i] != free[j]
  }

  /** Word 0 of element i holds the address of the element after it. */
  ghost predicate NextOk(m: Memory, free: seq<nat>, i: nat)
    requires i < |free|
  {
    free[i] in m && |m[free[i]]| == ENTRIES && m[free[i]][0] == Link(free, i + 1)
  }

  /** `free` is the list that starts at address `head` and continues through word 0 of each frame. */
  ghost predicate IsFreeList(m: Memory, head: nat, free: seq<nat>) {
    && Distinct(free)
    && head == Link(free, 0)
    && (forall f :: f in free ==> f in m && f > 0)
    && (forall i: nat :: i < |free| ==> NextOk(m, free, i))
  }

  ghost predicate FreeOk(s: State) {
    && IsFreeList(s.mem, s.head, s.free)
    && (forall f :: f in s.roles ==> (s.roles[f].Free? <==> f in s.free))
  }

  /** The entries of a directory that serve the addresses below MAXVA; the walker uses no others. */
  const LOWER_HALF: nat := 256

  ghost predicate IdOk(s: State, id: NodeId)
    requires id in s.nodes
  {
    && id.level <= 2
    && (id.level == 2 ==> id.k == 0)
    && (id.level == 1 ==> id.k < LOWER_HALF)
    && (id.level < 2 ==> id.Parent() in s.nodes)
    && s.nodes[id] in s.roles
    && s.roles[s.nodes[id]] == Table(id)
  }

  /** Entry i of an interior table is valid exactly when its child exists, and then points to it. */
  ghost predicate LinkOk(s: State, id: NodeId, i: nat)
    requires id in s.nodes && id.level > 0
  {
    var e := Entry(s.mem, s.nodes[id], i);
    && (Valid(e) <==> id.Child(i) in s.nodes)
    && (Valid(e) ==> IsPointer(e) && FrameOf(e) == s.nodes[id.Child(i)])
  }

  ghost predicate TreesOk(s: State) {
    && (forall id {:trigger IdOk(s, id)} :: id in s.nodes ==> IdOk(s, id))
    && (forall f {:trigger s.roles[f].id} :: f in s.roles && s.roles[f].Table? ==>
          s.roles[f].id in s.nodes && s.nodes[s.roles[f].id] == f)
    && (forall id, i: nat :: id in s.nodes && id.level > 0 && i < ENTRIES ==> LinkOk(s, id, i))
  }

  ghost predicate Well(s: State) {
    PagesOk(s) && FreeOk(s) && TreesOk(s)
  }

  /** The leaf word of a page in a tree, 0 where the tree has no table for it. */
  ghost function LeafWord(s: State, t: Tree, vpn: nat): nat
  {
    var id := NodeId(t, 0, vpn / ENTRIES);
    if id in s.nodes && s.nodes[id] in s.mem && |s.mem[s.nodes[id]]| == ENTRIES
    then s.mem[s.nodes[id]][vpn % ENTRIES] else 0
  }

  /** No leaf lies at or above MAXVA. */
  lemma NoLeafAbove(s: State, t: Tree, vpn: nat)
    requires Well(s) && vpn >= MAXVPN
    ensures NodeId(t, 0, vpn / ENTRIES) !in s.nodes && LeafWord(s, t, vpn) == 0
  {
    hide Well;
    if NodeId(t, 0, vpn / ENTRIES) in s.nodes { TableBound(s, NodeId(t, 0, vpn / ENTRIES)); }
  }

  lemma TableBound(s: State, id: NodeId)
    requires Well(s) && id in s.nodes
    ensures (id.level == 1 ==> id.k < LOWER_HALF) && (id.level == 0 ==> id.k < LOWER_HALF * ENTRIES)
  {
    hide FreeOk;
    assert IdOk(s, id);
    if id.level == 0 { assert IdOk(s, id.Parent()); }
  }

  ghost predicate SameLeaves(s: State, s': State) {
    forall t, v: nat :: LeafWord(s', t, v) == LeafWord(s, t, v)
  }

  ghost predicate Mapped(s: State, t: Tree, vpn: nat) {
    Valid(LeafWord(s, t, vpn))
  }

  function Entry(m: Memory, f: nat, i: nat): nat {
    if f in m && i < |m[f]| then m[f][i] else 0
  }

  // ---- the elementary changes ----

  function Zeros(): (p: Page)
    ensures |p| == ENTRIES
    ensures forall i :: 0 <= i < ENTRIES ==> p[i] == 0
  {
    seq(ENTRIES, i => 0)
  }

  /** The same tables with the same words make the same trees. */
  ghost predicate SameTables(s: State, s': State)
  {
    && s'.nodes == s.nodes
    && (forall f :: f in s.roles && s.roles[f].Table? ==>
          f in s'.roles && s'.roles[f] == s.roles[f] && f in s.mem && f in s'.mem && s'.mem[f] == s.mem[f])
    && (forall f :: f in s'.roles && s'.roles[f].Table? ==> f in s.roles && s.roles[f].Table?)
  }

  lemma TreesFrame(s: State, s': State)
    requires PagesOk(s) && TreesOk(s) && PagesOk(s') && SameTables(s, s')
    ensures TreesOk(s') && SameLeaves(s, s')
  {
    forall id | id in s'.nodes ensures IdOk(s', id) {
      assert IdOk(s, id);
    }
    forall id, i: nat | id in s'.nodes && id.level > 0 && i < ENTRIES ensures LinkOk(s', id, i) {
      assert IdOk(s, id) && LinkOk(s, id, i);
    }
    forall t, v: nat ensures LeafWord(s', t, v) == LeafWord(s, t, v) {
      var low := NodeId(t, 0, v / ENTRIES);
      if low in s.nodes { assert IdOk(s, low); }
    }
  }

  /** Take the first free frame for `role`, leaving its words alone. */
  ghost function Take(s: State, role: Role): State
    requires Well(s) && s.free != []
  {
    var f := s.free[0];
    assert NextOk(s.mem, s.free, 0);
    s.(head := s.mem[f][0], free := s.free[1..], roles := s.roles[f := role])
  }

  /** The list without its first frame starts where that frame pointed. */
  lemma PopList(m: Memory, head: nat, free: seq<nat>)
    requires IsFreeList(m, head, free) && free != []
    ensures NextOk(m, free, 0)
    ensures IsFreeList(m, m[free[0]][0], free[1..]) && free[0] !in free[1..]
    ensures forall f :: f in free <==> f == free[0] || f in free[1..]
  {
    var rest := free[1..];
    assert NextOk(m, free, 0) && Link(free, 1) == Link(rest, 0);
    forall i: nat | i < |rest| ensures NextOk(m, rest, i) {
      assert NextOk(m, free, i + 1) && Link(free, i + 2) == Link(rest, i + 1);
    }
    assert free == [free[0]] + rest;
    forall i, j | 0 <= i < j < |rest| ensures rest[i] != rest[j] {
      assert free[i + 1] != free[j + 1];
    }
  }

  /** A list is untouched by writes to frames that are not on it. */
  lemma ListFrame(m: Memory, m': Memory, head: nat, free: seq<nat>)
    requires IsFreeList(m, head, free)
    requires forall f :: f in free ==> f in m' && m'[f] == m[f]
    ensures IsFreeList(m', head, free)
  {
    forall i: nat | i < |free| ensures NextOk(m', free, i) {
      assert free[i] in free && NextOk(m, free, i);
    }
  }

  lemma TakeWell(s: State, role: Role)
    requires Well(s) && s.free != [] && role.Plain()
    ensures Well(Take(s, role))
    ensures SameLeaves(s, Take(s, role))
  {
    PopList(s.mem, s.head, s.free);
    TreesFrame(s, Take(s, role));
  }

  /** Hand out the first free frame, zeroed, as child i of an interior table. */
  ghost function AddTable(s: State, id: NodeId, i: nat): State
    requires Well(s) && s.free != []
    requires id in s.nodes && id.level > 0 && i < ENTRIES
  {
    var f, p := s.free[0], s.nodes[id];
    assert NextOk(s.mem, s.free, 0) && IdOk(s, id);
    s.(mem := s.mem[f := Zeros()][p := Put(s.mem[p], i, PointerTo(f))],
       head := s.mem[f][0],
       free := s.free[1..],
       roles := s.roles[f := Table(id.Child(i))],
       nodes := s.nodes[id.Child(i) := f])
  }

  /** Taking a frame, clearing it and linking it are together the addition of a table. */
  lemma TakeThenLink(s: State, id: NodeId, i: nat)
    requires Well(s) && s.free != []
    requires id in s.nodes && id.level > 0 && i < ENTRIES
    ensures s.nodes[id] in s.mem && s.nodes[id] != s.free[0]
    ensures var f, p, s1 := s.free[0], s.nodes[id], Take(s, Taken);
      s1.(mem := s1.mem[f := Zeros()][p := Put(s1.mem[p], i, PointerTo(f))],
          roles := s1.roles[f := Table(id.Child(i))],
          nodes := s1.nodes[id.Child(i) := f]) == AddTable(s, id, i)
  {
    assert IdOk(s, id) && s.free[0] in s.free;
    assert s.roles[s.free[0] := Taken][s.free[0] := Table(id.Child(i))] == s.roles[s.free[0] := Table(id.Child(i))];
  }

  lemma AddTableFree(s: State, id: NodeId, i: nat)
    requires Well(s) && s.free != []
    requires id in s.nodes && id.level > 0 && i < ENTRIES
    ensures PagesOk(AddTable(s, id, i)) && FreeOk(AddTable(s, id, i))
  {
    var s' := AddTable(s, id, i);
    assert IdOk(s, id);
    PopList(s.mem, s.head, s.free);
    ListFrame(s.mem, s'.mem, s'.head, s'.free);
  }

  lemma AddTableLinks(s: State, id: NodeId, i: nat, id': NodeId, j: nat)
    requires Well(s) && s.free != []
    requires id in s.nodes && id.level > 0 && i < ENTRIES && id.Child(i) !in s.nodes
    requires PagesOk(AddTable(s, id, i)) && id' in AddTable(s, id, i).nodes && id'.level > 0 && j < ENTRIES
    ensures AddTable(s, id, i).nodes[id'] in AddTable(s, id, i).mem
    ensures LinkOk(AddTable(s, id, i), id', j)
  {
    var s' := AddTable(s, id, i);
    var f, p, c := s.free[0], s.nodes[id], id.Child(i);
    assert IdOk(s, id);
    if id' == c {
      assert c.Child(j) in s.nodes ==> IdOk(s, c.Child(j));
      assert s'.mem[s'.nodes[c]] == Zeros();
    } else {
      assert IdOk(s, id') && LinkOk(s, id', j);
      if id' == id && i == j {
        assert f in s.free;
        PointerFields(f);
      } else {
        assert id'.Child(j) != c;
        assert s'.mem[s'.nodes[id']][j] == s.mem[s.nodes[id']][j];
      }
    }
  }

  lemma AddTableWell(s: State, id: NodeId, i: nat)
    requires Well(s) && s.free != []
    requires id in s.nodes && id.level > 0 && i < ENTRIES && id.Child(i) !in s.nodes
    requires (id.level == 2 ==> i < LOWER_HALF)
    ensures Well(AddTable(s, id, i))
  {
    var s' := AddTable(s, id, i);
    AddTableFree(s, id, i);
    forall id' | id' in s'.nodes ensures IdOk(s', id') {
      assert IdOk(s, id);
      if id' != id.Child(i) { assert IdOk(s, id'); }
    }
    forall id', j: nat | id' in s'.nodes && id'.level > 0 && j < ENTRIES ensures LinkOk(s', id', j) {
      AddTableLinks(s, id, i, id', j);
    }
  }

  /** Frames that are neither free nor tables keep their words and their use, and no frame joins them. */
  ghost predicate PlainKept(s: State, s': State) {
    && s'.roles.Keys == s.roles.Keys && s'.mem.Keys == s.mem.Keys
    && (forall f :: f in s.roles && f in s.mem && s.roles[f].Plain() ==>
          s'.roles[f] == s.roles[f] && s'.mem[f] == s.mem[f])
    && (forall f :: f in s'.roles && s'.roles[f].Plain() ==> s.roles[f].Plain())
    && (forall f :: f in s'.roles && s'.roles[f].Free? ==> s.roles[f].Free?)
  }

  /** A new table changes no leaf word of any tree and no plain frame. */
  lemma AddTableKeeps(s: State, id: NodeId, i: nat)
    requires Well(s) && s.free != []
    requires id in s.nodes && id.level > 0 && i < ENTRIES && id.Child(i) !in s.nodes
    ensures SameLeaves(s, AddTable(s, id, i))
    ensures PlainKept(s, AddTable(s, id, i))
  {
    var s' := AddTable(s, id, i);
    assert IdOk(s, id) && s.free[0] in s.free;
    forall t, v: nat ensures LeafWord(s', t, v) == LeafWord(s, t, v) {
      var low := NodeId(t, 0, v / ENTRIES);
      if low in s.nodes { assert IdOk(s, low); }
    }
  }

  lemma PlainKeptTrans(s: State, s': State, s'': State)
    requires PlainKept(s, s') && PlainKept(s', s'')
    ensures PlainKept(s, s'')
  {
  }

  lemma SameLeavesTrans(s: State, s': State, s'': State)
    requires SameLeaves(s, s') && SameLeaves(s', s'')
    ensures SameLeaves(s, s'')
  {
  }

  ghost predicate NodesAdded(nodes: map<NodeId, nat>, nodes': map<NodeId, nat>, added: set<NodeId>) {
    && added !! nodes.Keys && nodes'.Keys == nodes.Keys + added
    && (forall id :: id in nodes ==> nodes'[id] == nodes[id])
  }

  lemma NodesAddedTrans(
      n: map<NodeId, nat>, n': map<NodeId, nat>, n'': map<NodeId, nat>, a: set<NodeId>, b: set<NodeId>)
    requires NodesAdded(n, n', a) && NodesAdded(n', n'', b)
    ensures NodesAdded(n, n'', a + b) && a !! b
  {
    assert a <= n'.Keys;
    forall id | id in n ensures id in n'' && n''[id] == n[id] {
      assert id in n'.Keys && id in n''.Keys;
    }
  }

  /** The first n elements are gone. */
  ghost predicate ListDropped(q: seq<nat>, q': seq<nat>, n: nat) {
    n <= |q| && q' == q[n..]
  }

  /** The tables `added` were taken from the front of the free list; older tables stay in place. */
  ghost predicate TablesAdded(s: State, s': State, added: set<NodeId>) {
    ListDropped(s.free, s'.free, |added|) && NodesAdded(s.nodes, s'.nodes, added)
  }

  /** `s'` is `s` with more tables and nothing else changed. */
  ghost predicate Grown(s: State, s': State, added: set<NodeId>) {
    SameLeaves(s, s') && PlainKept(s, s') && TablesAdded(s, s', added)
  }

  lemma DisjointSizes(a: set<NodeId>, b: set<NodeId>)
    requires a !! b
    ensures |a + b| == |a| + |b|
  {
  }

  lemma DropDrop(q: seq<nat>, q': seq<nat>, q'': seq<nat>, i: nat, j: nat)
    requires ListDropped(q, q', i) && ListDropped(q', q'', j)
    ensures ListDropped(q, q'', i + j)
  {
  }

  lemma TablesAddedTrans(s: State, s': State, s'': State, a: set<NodeId>, b: set<NodeId>)
    requires TablesAdded(s, s', a) && TablesAdded(s', s'', b)
    ensures TablesAdded(s, s'', a + b) && |a + b| == |a| + |b|
  {
    hide NodesAdded, ListDropped;
    NodesAddedTrans(s.nodes, s'.nodes, s''.nodes, a, b);
    DropBoth(s.free, s'.free, s''.free, a, b);
  }

  lemma DropBoth(q: seq<nat>, q': seq<nat>, q'': seq<nat>, a: set<NodeId>, b: set<NodeId>)
    requires a !! b && ListDropped(q, q', |a|) && ListDropped(q', q'', |b|)
    ensures |a + b| == |a| + |b| && ListDropped(q, q'', |a + b|)
  {
    hide ListDropped;
    DisjointSizes(a, b);
    DropDrop(q, q', q'', |a|, |b|);
  }

  lemma GrownTrans(s: State, s': State, s'': State, a: set<NodeId>, b: set<NodeId>)
    requires Grown(s, s', a) && Grown(s', s'', b)
    ensures Grown(s, s'', a + b)
  {
    hide SameLeaves, PlainKept, TablesAdded;
    SameLeavesTrans(s, s', s'');
    PlainKeptTrans(s, s', s'');
    TablesAddedTrans(s, s', s'', a, b);
  }

  lemma AddTableGrows(s: State, id: NodeId, i: nat)
    requires Well(s) && s.free != []
    requires id in s.nodes && id.level > 0 && i < ENTRIES && id.Child(i) !in s.nodes
    ensures Grown(s, AddTable(s, id, i), {id.Child(i)})
  {
    hide Well, SameLeaves, PlainKept;
    AddTableKeeps(s, id, i);
  }

  /** Overwrite the leaf word of a page. */
  ghost function SetLeaf(s: State, t: Tree, vpn: nat, w: nat): State
    requires Well(s) && NodeId(t, 0, vpn / ENTRIES) in s.nodes
  {
    var p := s.nodes[NodeId(t, 0, vpn / ENTRIES)];
    assert IdOk(s, NodeId(t, 0, vpn / ENTRIES));
    s.(mem := s.mem[p := Put(s.mem[p], vpn % ENTRIES, w)])
  }

  lemma SetLeafWell(s: State, t: Tree, vpn: nat, w: nat)
    requires Well(s) && NodeId(t, 0, vpn / ENTRIES) in s.nodes
    ensures Well(SetLeaf(s, t, vpn, w))
    ensures PlainKept(s, SetLeaf(s, t, vpn, w))
  {
    var s', low := SetLeaf(s, t, vpn, w), NodeId(t, 0, vpn / ENTRIES);
    assert IdOk(s, low) && s.nodes[low] !in s.free;
    ListFrame(s.mem, s'.mem, s'.head, s'.free);
    forall id | id in s'.nodes ensures IdOk(s', id) {
      assert IdOk(s, id);
    }
    forall id, i: nat | id in s'.nodes && id.level > 0 && i < ENTRIES ensures LinkOk(s', id, i) {
      assert IdOk(s, id) && LinkOk(s, id, i);
    }
  }

  /** One page of one tree got a new leaf word. */
  ghost predicate LeafChanged(s: State, s': State, t: Tree, vpn: nat, w: nat) {
    forall t', v: nat :: LeafWord(s', t', v) == if t' == t && v == vpn then w else LeafWord(s, t', v)
  }

  lemma SetLeafChanges(s: State, t: Tree, vpn: nat, w: nat)
    requires Well(s) && NodeId(t, 0, vpn / ENTRIES) in s.nodes
    ensures LeafChanged(s, SetLeaf(s, t, vpn, w), t, vpn, w)
  {
    var s', low := SetLeaf(s, t, vpn, w), NodeId(t, 0, vpn / ENTRIES);
    assert IdOk(s, low);
    forall t', v: nat ensures LeafWord(s', t', v) == if t' == t && v == vpn then w else LeafWord(s, t', v) {
      var low' := NodeId(t', 0, v / ENTRIES);
      if low' in s.nodes { assert IdOk(s, low'); }
    }
  }

  /** Put a frame at the front of the free list. */
  ghost function Give(s: State, f: nat): State
    requires f in s.mem && |s.mem[f]| == ENTRIES
  {
    s.(mem := s.mem[f := Put(s.mem[f], 0, s.head)],
       head := f * PAGE_SIZE,
       free := [f] + s.free,
       roles := s.roles[f := Free])
  }

  /** Pushing a frame that is not on the list extends the list. */
  lemma PushList(m: Memory, head: nat, free: seq<nat>, f: nat)
    requires IsFreeList(m, head, free) && f !in free && f in m && f > 0 && |m[f]| == ENTRIES
    ensures IsFreeList(m[f := Put(m[f], 0, head)], f * PAGE_SIZE, [f] + free)
  {
    var m', free' := m[f := Put(m[f], 0, head)], [f] + free;
    ListFrame(m, m', head, free);
    forall i: nat | i < |free'| ensures NextOk(m', free', i) {
      if i > 0 {
        assert free'[i] == free[i - 1] && NextOk(m', free, i - 1);
      }
    }
  }

  lemma GiveWell(s: State, f: nat)
    requires Well(s) && f in s.roles && s.roles[f].Plain()
    ensures Well(Give(s, f))
    ensures SameLeaves(s, Give(s, f))
  {
    PushList(s.mem, s.head, s.free, f);
    TreesFrame(s, Give(s, f));
  }

  /** Overwrite a frame that is neither free nor a table, or change what it is for. */
  ghost function Fill(s: State, f: nat, page: Page, role: Role): State
  {
    s.(mem := s.mem[f := page], roles := s.roles[f := role])
  }

  lemma FillWell(s: State, f: nat, page: Page, role: Role)
    requires Well(s) && f in s.roles && s.roles[f].Plain() && |page| == ENTRIES && role.Plain()
    ensures Well(Fill(s, f, page, role))
    ensures SameLeaves(s, Fill(s, f, page, role))
  {
    var s' := Fill(s, f, page, role);
    ListFrame(s.mem, s'.mem, s'.head, s'.free);
    TreesFrame(s, s');
  }

  /** Turn a plain frame into the empty directory of a tree that has none. */
  ghost function PlantRoot(s: State, f: nat, t: Tree): State
  {
    s.(mem := s.mem[f := Zeros()], roles := s.roles[f := Table(Root(t))], nodes := s.nodes[Root(t) := f])
  }

  lemma PlantRootFree(s: State, f: nat, t: Tree)
    requires Well(s) && f in s.roles && s.roles[f].Plain()
    ensures PagesOk(PlantRoot(s, f, t)) && FreeOk(PlantRoot(s, f, t))
  {
    ListFrame(s.mem, PlantRoot(s, f, t).mem, s.head, s.free);
  }

  lemma PlantRootWell(s: State, f: nat, t: Tree)
    requires Well(s) && f in s.roles && s.roles[f].Plain() && Root(t) !in s.nodes
    ensures Well(PlantRoot(s, f, t))
  {
    var s' := PlantRoot(s, f, t);
    PlantRootFree(s, f, t);
    forall id | id in s'.nodes ensures IdOk(s', id) {
      if id != Root(t) { assert IdOk(s, id); }
    }
    forall id, i: nat | id in s'.nodes && id.level > 0 && i < ENTRIES ensures LinkOk(s', id, i) {
      PlantRootLinks(s, f, t, id, i);
    }
  }

  lemma PlantRootKeeps(s: State, f: nat, t: Tree)
    requires Well(s) && f in s.roles && s.roles[f].Plain() && Root(t) !in s.nodes
    ensures SameLeaves(s, PlantRoot(s, f, t))
    ensures forall v: nat :: LeafWord(s, t, v) == 0
  {
    forall t', v: nat ensures LeafWord(PlantRoot(s, f, t), t', v) == LeafWord(s, t', v) {
      var low := NodeId(t', 0, v / ENTRIES);
      if low in s.nodes { assert IdOk(s, low); }
    }
    forall v: nat ensures LeafWord(s, t, v) == 0 {
      var low := NodeId(t, 0, v / ENTRIES);
      if low in s.nodes { RootAbove(s, low); }
    }
  }

  /** Every table hangs off the directory of its tree. */
  lemma RootAbove(s: State, id: NodeId)
    requires Well(s) && id in s.nodes
    ensures Root(id.tree) in s.nodes
  {
    assert IdOk(s, id);
    if id.level < 2 {
      var p := id.Parent();
      assert IdOk(s, p);
      if p.level < 2 { assert IdOk(s, p.Parent()); }
    }
  }

  lemma PlantRootLinks(s: State, f: nat, t: Tree, id: NodeId, i: nat)
    requires Well(s) && f in s.roles && s.roles[f].Plain() && Root(t) !in s.nodes
    requires id in PlantRoot(s, f, t).nodes && id.level > 0 && i < ENTRIES && PagesOk(PlantRoot(s, f, t))
    ensures PlantRoot(s, f, t).nodes[id] in PlantRoot(s, f, t).mem && LinkOk(PlantRoot(s, f, t), id, i)
  {
    if id == Root(t) {
      assert id.Child(i) in s.nodes ==> IdOk(s, id.Child(i));
    } else {
      assert IdOk(s, id) && LinkOk(s, id, i);
    }
  }
}
