/**
 The address space of a process while it is being built: exactly which pages it maps, the
 tables they need, and what they cost of the free list.  This decides when building succeeds.
 */
module Shape {
  import opened Sv39
  import opened Layout
  import opened Vmm
  import opened UserMemory

  /** The tables below the directory that serve a list of pages. */
  ghost function Tables(t: Tree, pages: seq<nat>): set<NodeId> {
    if pages == [] then {} else Tables(t, pages[..|pages| - 1]) + PathOf(t, pages[|pages| - 1])
  }

  /** The tables of process n are its directory and those its pages need. */
  ghost predicate TablesExact(s: State, n: nat, pages: seq<nat>) {
    forall id: NodeId {:trigger id in s.nodes} {:trigger id in Tables(UserTree(n), pages)} ::
      id.tree == UserTree(n) ==> (id in s.nodes <==> id == Root(UserTree(n)) || id in Tables(UserTree(n), pages))
  }

  /** The pages process n maps are the listed ones. */
  ghost predicate PagesExact(s: State, n: nat, pages: seq<nat>) {
    && Distinct(pages) && (forall i :: 0 <= i < |pages| ==> pages[i] < MAXVPN)
    && (forall v: nat {:trigger LeafWord(s, UserTree(n), v)} :: Valid(LeafWord(s, UserTree(n), v)) <==> v in pages)
  }

  /** From s0 to s the list gave up `taken` frames and the tables of these pages, which process n now maps. */
  ghost predicate Shaped(s0: State, s: State, n: nat, pages: seq<nat>, taken: nat) {
    && PagesExact(s, n, pages) && TablesExact(s, n, pages)
    && |s0.free| == |s.free| + taken + |Tables(UserTree(n), pages)|
  }

  /** So many frames suffice for these pages of process n, all different and low enough, and for `taken` other uses. */
  ghost predicate FitsIn(frames: nat, n: nat, pages: seq<nat>, taken: nat) {
    && Distinct(pages) && (forall i :: 0 <= i < |pages| ==> pages[i] < MAXVPN)
    && taken + |Tables(UserTree(n), pages)| <= frames
  }

  ghost predicate Fits(s0: State, n: nat, pages: seq<nat>, taken: nat) {
    FitsIn(|s0.free|, n, pages, taken)
  }

  lemma TablesNext(t: Tree, pages: seq<nat>, v: nat)
    ensures Tables(t, pages + [v]) == Tables(t, pages) + PathOf(t, v)
  {
    assert (pages + [v])[..|pages|] == pages;
  }

  lemma {:induction false} TablesTree(t: Tree, pages: seq<nat>)
    ensures forall id :: id in Tables(t, pages) ==> id.tree == t && id.level < 2
  {
    if pages != [] { TablesTree(t, pages[..|pages| - 1]); }
  }

  lemma {:induction false} TablesGrow(t: Tree, pages: seq<nat>, more: seq<nat>)
    ensures Tables(t, pages) <= Tables(t, pages + more) && |Tables(t, pages)| <= |Tables(t, pages + more)|
    decreases |more|
  {
    hide PathOf;
    if more == [] {
      assert pages + more == pages;
    } else {
      var init, v := more[..|more| - 1], more[|more| - 1];
      TablesGrow(t, pages, init);
      assert pages + more == pages + init + [v];
      TablesNext(t, pages + init, v);
    }
    SubsetSize(Tables(t, pages), Tables(t, pages + more));
  }

  /** A prefix fits when the whole does. */
  lemma FitsPrefix(s0: State, n: nat, pages: seq<nat>, more: seq<nat>, taken: nat, total: nat)
    requires Fits(s0, n, pages + more, total) && taken <= total
    ensures Fits(s0, n, pages, taken)
  {
    hide Tables;
    TablesGrow(UserTree(n), pages, more);
    var all := pages + more;
    forall i, j | 0 <= i < j < |pages| ensures pages[i] != pages[j] {
      assert all[i] == pages[i] && all[j] == pages[j];
    }
    forall i | 0 <= i < |pages| ensures pages[i] < MAXVPN {
      assert all[i] == pages[i];
    }
  }

  lemma ShapedFits(s0: State, s: State, n: nat, pages: seq<nat>, taken: nat)
    requires Shaped(s0, s, n, pages, taken)
    ensures Fits(s0, n, pages, taken)
  {
    hide Tables;
  }

  /** What one more page costs. */
  lemma NextCost(s0: State, s: State, n: nat, pages: seq<nat>, taken: nat, v: nat)
    requires Shaped(s0, s, n, pages, taken)
    ensures var more := PathOf(UserTree(n), v) - s.nodes.Keys;
      && Tables(UserTree(n), pages + [v]) == Tables(UserTree(n), pages) + more
      && |Tables(UserTree(n), pages + [v])| == |Tables(UserTree(n), pages)| + |more|
  {
    hide Tables, PagesExact;
    var t := UserTree(n);
    TablesNext(t, pages, v);
    forall id | id in PathOf(t, v) ensures id in s.nodes.Keys <==> id in Tables(t, pages) {
      assert id in s.nodes.Keys <==> id in s.nodes;
    }
    SplitCost(Tables(t, pages), PathOf(t, v), s.nodes.Keys);
  }

  lemma SplitCost(tables: set<NodeId>, path: set<NodeId>, keys: set<NodeId>)
    requires forall id :: id in path ==> (id in keys <==> id in tables)
    ensures tables + path == tables + (path - keys) && |tables + path| == |tables| + |path - keys|
  {
    DisjointSizes(tables, path - keys);
  }

  /** One more page can be mapped exactly when the list of pages with it still fits. */
  lemma CanMapNext(s0: State, s: State, n: nat, pages: seq<nat>, taken: nat, v: nat)
    requires Shaped(s0, s, n, pages, taken)
    ensures CanMap(s, UserTree(n), v, 1) <==> Fits(s0, n, pages + [v], taken)
  {
    hide Tables, TablesExact, LeafWord, Valid;
    NextCost(s0, s, n, pages, taken, v);
    OnePageMissing(s, UserTree(n), v);
    OnePageVacant(s, UserTree(n), v);
    NextDistinct(pages, v);
    assert Mapped(s, UserTree(n), v) <==> Valid(LeafWord(s, UserTree(n), v));
  }

  lemma NextDistinct(pages: seq<nat>, v: nat)
    ensures Distinct(pages) ==> (Distinct(pages + [v]) <==> v !in pages)
    ensures (forall i :: 0 <= i < |pages| ==> pages[i] < MAXVPN) ==>
      ((forall i :: 0 <= i < |pages + [v]| ==> (pages + [v])[i] < MAXVPN) <==> v < MAXVPN)
  {
    var all := pages + [v];
    if v in pages {
      var i :| 0 <= i < |pages| && pages[i] == v;
      assert all[i] == all[|pages|];
    }
    assert all[|pages|] == v;
  }

  /** A page was mapped for process n. */
  lemma ShapedMap(s0: State, s: State, s': State, n: nat, pages: seq<nat>, taken: nat, v: nat, w: nat)
    requires Shaped(s0, s, n, pages, taken) && Fits(s0, n, pages + [v], taken)
    requires TablesAdded(s, s', PathOf(UserTree(n), v) - s.nodes.Keys)
    requires LeafChanged(s, s', UserTree(n), v, w) && Valid(w)
    ensures Shaped(s0, s', n, pages + [v], taken)
  {
    hide Tables, PagesExact, TablesExact, LeafChanged, PathOf, NodesAdded;
    NextCost(s0, s, n, pages, taken, v);
    MapPagesExact(s, s', n, pages, v, w);
    MapTablesExact(s, s', n, pages, v, PathOf(UserTree(n), v) - s.nodes.Keys);
    FitsDistinct(s0, n, pages + [v], taken);
  }

  lemma FitsDistinct(s0: State, n: nat, pages: seq<nat>, taken: nat)
    requires Fits(s0, n, pages, taken)
    ensures Distinct(pages) && (forall i :: 0 <= i < |pages| ==> pages[i] < MAXVPN)
  {
    hide Tables;
  }

  lemma MapPagesExact(s: State, s': State, n: nat, pages: seq<nat>, v: nat, w: nat)
    requires PagesExact(s, n, pages) && LeafChanged(s, s', UserTree(n), v, w) && Valid(w)
    requires Distinct(pages + [v]) && (forall i :: 0 <= i < |pages + [v]| ==> (pages + [v])[i] < MAXVPN)
    ensures PagesExact(s', n, pages + [v])
  {
    hide LeafWord, Valid;
    forall u: nat ensures Valid(LeafWord(s', UserTree(n), u)) <==> u in pages + [v] {
      assert LeafWord(s', UserTree(n), u) == if u == v then w else LeafWord(s, UserTree(n), u);
    }
  }

  lemma MapTablesExact(s: State, s': State, n: nat, pages: seq<nat>, v: nat, more: set<NodeId>)
    requires TablesExact(s, n, pages) && NodesAdded(s.nodes, s'.nodes, more)
    requires Tables(UserTree(n), pages + [v]) == Tables(UserTree(n), pages) + more
    ensures TablesExact(s', n, pages + [v])
  {
    hide Tables;
    forall id: NodeId | id.tree == UserTree(n)
      ensures id in s'.nodes <==> id == Root(UserTree(n)) || id in Tables(UserTree(n), pages + [v])
    {
      assert id in s'.nodes.Keys <==> id in s.nodes.Keys || id in more;
    }
  }

  /** A frame was taken from the list for another purpose. */
  lemma ShapedTake(s0: State, s: State, s': State, n: nat, pages: seq<nat>, taken: nat)
    requires Shaped(s0, s, n, pages, taken) && s.free != [] && s'.free == s.free[1..]
    requires SameLeaves(s, s') && s'.nodes == s.nodes
    ensures Shaped(s0, s', n, pages, taken + 1)
  {
    hide Tables, LeafWord, Valid;
    forall u: nat ensures Valid(LeafWord(s', UserTree(n), u)) <==> u in pages {
      assert LeafWord(s', UserTree(n), u) == LeafWord(s, UserTree(n), u);
    }
  }

  /** Words of frames that are no tables do not matter. */
  lemma ShapedStays(s0: State, s: State, s': State, n: nat, pages: seq<nat>, taken: nat)
    requires Shaped(s0, s, n, pages, taken) && s'.free == s.free && SameLeaves(s, s') && s'.nodes == s.nodes
    ensures Shaped(s0, s', n, pages, taken)
  {
    hide Tables, LeafWord, Valid;
    forall u: nat ensures Valid(LeafWord(s', UserTree(n), u)) <==> u in pages {
      assert LeafWord(s', UserTree(n), u) == LeafWord(s, UserTree(n), u);
    }
  }

  /** With an empty list nothing more fits. */
  lemma NothingFits(s0: State, s: State, n: nat, pages: seq<nat>, taken: nat, v: nat)
    requires Shaped(s0, s, n, pages, taken) && s.free == []
    ensures !Fits(s0, n, pages + [v], taken + 1)
  {
    hide Tables, PagesExact, TablesExact;
    TablesGrow(UserTree(n), pages, [v]);
  }
}
