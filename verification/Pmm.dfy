/**
 The physical page allocator (kernel/pmm.c): a list of free pages threaded through the
 free pages themselves.
 */
module Pmm {
  import opened Words
  import opened Sv39
  import opened Layout

  /** How a kernel call ends; `Halted` stands for panic, a failed assertion or a wild access. */
  datatype Outcome = Done | Failed | Halted

  const DRAM_BASE: nat := 0x8000_0000
  const KERN_BASE: nat := 0x8000_0000
  const MAX_RAM: nat := 128 * 1024 * 1024
  const PHYS_TOP: nat := DRAM_BASE + MAX_RAM

  /** The frames the free list starts with: whole pages strictly inside [start, end). */
  ghost predicate InPool(start: nat, end: nat, f: nat) {
    start <= f * PAGE_SIZE && f * PAGE_SIZE + PAGE_SIZE < end
  }

  /** Whole pages strictly inside [start, end), for an aligned start. */
  function PoolCount(start: nat, end: nat): nat {
    if end <= start then 0 else (end - start - 1) / PAGE_SIZE
  }

  /** Frames first .. n-1, the highest one first. */
  ghost predicate Descending(free: seq<nat>, first: nat, n: nat)
    requires first <= n
  {
    |free| == n - first && forall i :: 0 <= i < |free| ==> free[i] == n - 1 - i
  }

  lemma Counted(first: nat, n: nat, end: nat)
    requires first <= n && (n > first ==> n * PAGE_SIZE < end) && n * PAGE_SIZE + PAGE_SIZE >= end
    ensures PoolCount(first * PAGE_SIZE, end) == n - first
  {
  }

  class Machine {
    var mem: Memory
    var head: nat
    var startAddr: nat
    var endAddr: nat
    ghost var free: seq<nat>
    ghost var roles: map<nat, Role>
    ghost var nodes: map<NodeId, nat>

    ghost function S(): State
      reads this
    {
      State(mem, head, free, roles, nodes)
    }

    /** Every page free_page accepts is backed by memory. */
    ghost predicate Backed()
      reads this
    {
      && (forall f: nat :: startAddr <= f * PAGE_SIZE < endAddr ==> f in mem)
      && (forall f :: f in mem ==> 0 < f < PPN_LIMIT && |mem[f]| == ENTRIES)
    }

    ghost predicate Valid()
      reads this
    {
      Backed() && Well(S())
    }

    constructor (ram: Memory)
      requires forall f :: f in ram ==> 0 < f < PPN_LIMIT && |ram[f]| == ENTRIES
      ensures mem == ram && head == 0 && free == [] && nodes == map[]
      ensures roles == map f | f in ram :: Image
      ensures Valid() && startAddr == 0 == endAddr
    {
      mem, head, startAddr, endAddr := ram, 0, 0, 0;
      free, nodes := [], map[];
      roles := map f | f in ram :: Image;
    }

    /** Put the page at address pa in front of the list, whoever uses it. */
    method FreePage(pa: nat) returns (r: Outcome)
      requires Backed()
      modifies this
      ensures Backed() && startAddr == old(startAddr) && endAddr == old(endAddr)
      ensures r.Done? || r.Halted?
      ensures r.Halted? <==> pa % PAGE_SIZE != 0 || pa < startAddr || pa >= endAddr
      ensures r.Halted? ==> S() == old(S())
      ensures r.Done? ==> pa / PAGE_SIZE in old(mem) && S() == Give(old(S()), pa / PAGE_SIZE)
    {
      if pa % PAGE_SIZE != 0 || pa < startAddr || pa >= endAddr {
        return Halted;
      }
      var f := pa / PAGE_SIZE;
      assert f * PAGE_SIZE == pa && f in mem;
      mem := mem[f := Put(mem[f], 0, head)];
      head := pa;
      free, roles := [f] + free, roles[f := Free];
      return Done;
    }

    lemma NullIsEmpty(m: Memory, h: nat, list: seq<nat>)
      requires IsFreeList(m, h, list)
      ensures h == 0 <==> list == []
    {
      if list != [] { assert list[0] in list; }
    }

    /** Take the first page of the list, or answer 0 when there is none. */
    method AllocPage() returns (pa: nat)
      requires Valid()
      modifies this
      ensures Valid() && startAddr == old(startAddr) && endAddr == old(endAddr)
      ensures old(free) == [] ==> pa == 0 && S() == old(S())
      ensures old(free) != [] ==>
        pa == old(free)[0] * PAGE_SIZE && pa > 0 && S() == Take(old(S()), Taken)
    {
      hide TreesOk;
      NullIsEmpty(mem, head, free);
      pa := head;
      if pa != 0 {
        ghost var s := S();
        assert free != [] && pa / PAGE_SIZE == free[0] && NextOk(mem, free, 0);
        head := mem[pa / PAGE_SIZE][0];
        TakeWell(s, Taken);
        free, roles := free[1..], roles[free[0] := Taken];
        assert S() == Take(s, Taken);
      }
    }

    /** What holds while the list is being built: frames first .. n-1 are on it. */
    ghost predicate Building(first: nat, n: nat)
      reads this
    {
      && Valid() && nodes == map[]
      && (forall f: nat :: f in free <==> first <= f < n) && first <= n && Descending(free, first, n)
      && (forall f :: f in roles && roles[f].Plain() ==> roles[f].Image?)
    }

    /** Build the list out of the pages that lie strictly inside [start, end). */
    method CreateFreepageList(start: nat, end: nat)
      requires Backed() && startAddr <= start && end <= endAddr && 0 < start < WORD_LIMIT - PAGE_SIZE
      requires nodes == map[] && roles == map f | f in mem :: Image
      modifies this
      ensures Valid() && startAddr == old(startAddr) && endAddr == old(endAddr)
      ensures nodes == map[] && mem.Keys == old(mem.Keys)
      ensures forall f: nat :: f in free <==> InPool(start, end, f)
      ensures forall f :: f in roles && roles[f].Plain() ==> roles[f].Image?
      ensures var first := RoundUp(start) / PAGE_SIZE; Descending(free, first, first + PoolCount(RoundUp(start), end))
    {
      head, free := 0, [];
      var p := RoundUp(start);
      ghost var first := RoundUpFacts(start);
      ghost var n := first;
      while p + PAGE_SIZE < end
        invariant p == n * PAGE_SIZE && first <= n
        invariant n > first ==> p < end
        invariant startAddr == old(startAddr) && endAddr == old(endAddr) && mem.Keys == old(mem.Keys)
        invariant Building(first, n)
        decreases end - p
      {
        PushNext(p, first, n);
        p := p + PAGE_SIZE;
        n := n + 1;
      }
      Counted(first, n, end);
    }

    method PushNext(p: nat, ghost first: nat, ghost n: nat)
      requires p == n * PAGE_SIZE && first <= n && startAddr <= p < endAddr
      requires Building(first, n)
      modifies this
      ensures Building(first, n + 1)
      ensures startAddr == old(startAddr) && endAddr == old(endAddr) && mem.Keys == old(mem.Keys)
    {
      assert p / PAGE_SIZE == n && n in mem;
      GiveWell(S(), n);
      var r := FreePage(p);
    }

    /** Compute the bounds of free memory from the end of the kernel image, and build the list. */
    method PmmInit(kernelEnd: nat, memSize: nat) returns (r: Outcome, managed: nat)
      requires KERN_BASE < kernelEnd < WORD_LIMIT - PAGE_SIZE && memSize < WORD_LIMIT
      requires Valid() && nodes == map[] && roles == map f | f in mem :: Image
      requires forall f: nat :: DRAM_BASE <= f * PAGE_SIZE < DRAM_BASE + memSize ==> f in mem
      modifies this
      ensures managed == if memSize < 0x800_0000 then memSize else 0x800_0000
      ensures (r.Done? || r.Halted?) && (r.Halted? <==> managed < kernelEnd - 0x8000_0000)
      ensures r.Done? ==>
        && Valid() && nodes == map[] && mem.Keys == old(mem.Keys)
        && endAddr == 0x8000_0000 + managed <= PHYS_TOP
        && kernelEnd <= startAddr < kernelEnd + PAGE_SIZE && startAddr % PAGE_SIZE == 0
        && (forall f: nat :: f in free <==> InPool(startAddr, endAddr, f))
        && (forall f :: f in roles && roles[f].Plain() ==> roles[f].Image?)
        && startAddr == RoundUp(kernelEnd)
        && Descending(free, startAddr / PAGE_SIZE, startAddr / PAGE_SIZE + PoolCount(startAddr, endAddr))
    {
      hide InPool, Descending, PoolCount, TreesOk, FreeOk;
      var kernelSize := kernelEnd - KERN_BASE;
      ghost var n := RoundUpFacts(kernelEnd);
      startAddr := RoundUp(kernelEnd);
      managed := if MAX_RAM < memSize then MAX_RAM else memSize;
      if managed < kernelSize {
        endAddr := 0;
        return Halted, managed;
      }
      endAddr := managed + DRAM_BASE;
      ghost var m := RoundUpFacts(startAddr);
      CreateFreepageList(startAddr, endAddr);
      return Done, managed;
    }
  }
}
