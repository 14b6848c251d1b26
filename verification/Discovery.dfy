/**
 Finding the memory of the machine in the device tree (spike_interface/spike_memory.c): one
 flat record is shared by the whole recursion of the scan.
 */
module Discovery {
  import opened DeviceTree
  import opened Scanner

  const LIMIT: nat := 0x1_0000_0000_0000_0000

  /** The record the callbacks share: whether the node is memory, and its last reg property. */
  datatype Record = Record(memory: bool, found: bool, reg: seq<Word>, len: Word)

  const Cleared := Record(false, false, [], 0)

  datatype Range = Range(base: nat, size: nat)

  function ValueBytes(value: seq<Word>): seq<Byte> {
    if value == [] then [] else
    var raw := Bswap(value[0]);
    [ByteOf(raw, 0), ByteOf(raw, 1), ByteOf(raw, 2), ByteOf(raw, 3)] + ValueBytes(value[1..])
  }

  function TextOf(value: seq<Word>): seq<Byte> { StringAt(ValueBytes(value), 0) }

  /** mem_prop. */
  function Heard(r: Record, name: seq<Byte>, len: Word, value: seq<Word>): Record {
    if name == Ascii("device_type") && TextOf(value) == Ascii("memory") then r.(memory := true)
    else if name == Ascii("reg") then r.(found := true, reg := value, len := len)
    else r
  }

  /** The bytes of a packed text are its own, then NUL. */
  lemma {:induction false} PackedText(t: seq<Byte>)
    ensures var bytes := ValueBytes(Pack(t)); |t| < |bytes| && bytes[..|t|] == t && bytes[|t|] == 0
    decreases |t|
  {
    hide Bswap, Cell, ByteOf;
    var cells, bytes := Pack(t), ValueBytes(Pack(t));
    var b := k => if 0 <= k < |t| then t[k] else 0;
    assert cells[0] == Cell(b(0), b(1), b(2), b(3));
    BswapTwice(cells[0]);
    BytesOfCell(b(0), b(1), b(2), b(3), Bswap(cells[0]));
    var four := [ByteOf(Bswap(cells[0]), 0), ByteOf(Bswap(cells[0]), 1), ByteOf(Bswap(cells[0]), 2),
                 ByteOf(Bswap(cells[0]), 3)];
    assert bytes == four + ValueBytes(cells[1..]);
    if |t| >= 4 {
      PackedText(t[4..]);
      assert cells[1..] == Pack(t[4..]);
      var more := ValueBytes(Pack(t[4..]));
      assert bytes[|t|] == more[|t| - 4];
      assert bytes[..|t|] == four + more[..|t| - 4] == t;
    }
  }

  lemma {:induction false} StringStops(bytes: seq<Byte>, t: seq<Byte>, off: nat)
    requires NameOk(t) && |t| < |bytes| && bytes[..|t|] == t && bytes[|t|] == 0 && off <= |t|
    ensures StringAt(bytes, off) == t[off..]
    decreases |t| - off
  {
    if off < |t| {
      assert bytes[off] == bytes[..|t|][off] == t[off];
      StringStops(bytes, t, off + 1);
    }
  }

  /** A string property reads as the text that was packed into it. */
  lemma TextReadsBack(t: seq<Byte>)
    requires NameOk(t)
    ensures TextOf(Pack(t)) == t
  {
    hide Pack, ValueBytes;
    PackedText(t);
    StringStops(ValueBytes(Pack(t)), t, 0);
  }

  lemma MemoryName()
    ensures NameOk(Ascii("memory"))
  {
    AsciiBytes("memory");
    hide Ascii;
    forall i | 0 <= i < 6 ensures Ascii("memory")[i] != 0 {
      assert "memory"[i] as int != 0;
    }
  }

  /**
   What a property tells of its node: device_type makes it memory exactly when its text is
   "memory", reg alone gives the value and its length, and no other property does anything.
   */
  lemma PropertyTells(r: Record, name: seq<Byte>, len: Word, value: seq<Word>, t: seq<Byte>)
    requires NameOk(t) && (name == Ascii("device_type") ==> value == Pack(t))
    ensures Heard(r, name, len, value) ==
      if name == Ascii("device_type") then Record(r.memory || t == Ascii("memory"), r.found, r.reg, r.len)
      else if name == Ascii("reg") then Record(r.memory, true, value, len)
      else r
  {
    hide TextOf, Pack, Ascii;
    NamesDiffer();
    TextReadsBack(t);
  }

  lemma NamesDiffer()
    ensures Ascii("device_type") != Ascii("reg") && Ascii("device_type") != Ascii("#size-cells")
    ensures Ascii("device_type") != Ascii("#address-cells") && Ascii("reg") != Ascii("#size-cells")
    ensures Ascii("reg") != Ascii("#address-cells") && Ascii("#address-cells") != Ascii("#size-cells")
  {
    AsciiBytes("device_type");
    AsciiBytes("#size-cells");
    AsciiBytes("reg");
    AsciiBytes("#address-cells");
    hide Ascii;
    assert "device_type"[0] as int != "#size-cells"[0] as int;
    assert Ascii("device_type")[0] != Ascii("#size-cells")[0];
  }

  // ---- numbers made of cells ----

  function BigEndian(cells: seq<Word>): nat {
    if cells == [] then 0 else BigEndian(cells[..|cells| - 1]) * 0x1_0000_0000 + Number(cells[|cells| - 1])
  }

  /** Two cells are a 64-bit number, the high half first. */
  lemma TwoCells(hi: Word, lo: Word)
    ensures BigEndian([hi, lo]) == Number(hi) * 0x1_0000_0000 + Number(lo)
    ensures BigEndian([hi, lo]) % 0x1_0000_0000_0000_0000 == Number(hi) * 0x1_0000_0000 + Number(lo)
  {
    hide Number;
    NumberBound(hi);
    NumberBound(lo);
    assert [hi, lo][..1] == [hi] && [hi][..0] == [];
    assert BigEndian([hi]) == Number(hi);
  }

  /** A cell count from a property may be negative; it then stands for no cells. */
  function AtLeastZero(n: int): nat { if n > 0 then n else 0 }

  lemma ShiftIn(r: nat, x: nat, c: nat)
    requires r == x % LIMIT && c < 0x1_0000_0000
    ensures r * 0x1_0000_0000 % LIMIT + c == (x * 0x1_0000_0000 + c) % LIMIT
  {
    var q := x / LIMIT;
    assert x == q * LIMIT + r;
    var low, high := r % 0x1_0000_0000, r / 0x1_0000_0000;
    assert r == high * 0x1_0000_0000 + low;
    assert r * 0x1_0000_0000 == high * LIMIT + low * 0x1_0000_0000;
    Remainder(high, low * 0x1_0000_0000);
    Remainder(q * 0x1_0000_0000 + high, low * 0x1_0000_0000 + c);
    assert x * 0x1_0000_0000 + c == (q * 0x1_0000_0000 + high) * LIMIT + (low * 0x1_0000_0000 + c);
  }

  lemma Remainder(q: nat, r: nat)
    requires r < LIMIT
    ensures (q * LIMIT + r) % LIMIT == r
  {
  }

  lemma NumberBound(w: Word)
    ensures Number(w) < 0x1_0000_0000
  {
  }

  /** n cells from a place on. */
  function Window(read: nat -> Word, at: nat, n: nat): seq<Word> {
    seq(n, i requires 0 <= i < n => read(at + i))
  }

  lemma WindowNext(read: nat -> Word, at: nat, n: nat)
    ensures Window(read, at, n + 1)[..n] == Window(read, at, n) && Window(read, at, n + 1)[n] == read(at + n)
  {
  }

  /** fdt_get_address and fdt_get_size: a big-endian number of `count` cells, modulo 2 to the 64. */
  method GetCells(read: nat -> Word, at: nat, count: int) returns (result: nat, next: nat)
    ensures next == at + AtLeastZero(count) && result == BigEndian(Window(read, at, AtLeastZero(count))) % LIMIT
  {
    hide Number, Window;
    NoCells(read, at);
    result, next := 0, at;
    var cells := count;
    while cells > 0
      invariant at <= next && cells <= count && (count > 0 ==> cells >= 0 && next == at + count - cells)
      invariant count <= 0 ==> next == at && cells == count
      invariant result == BigEndian(Window(read, at, next - at)) % LIMIT
    {
      NumberBound(read(next));
      WindowNext(read, at, next - at);
      WindowSize(read, at, next - at + 1);
      ShiftIn(result, BigEndian(Window(read, at, next - at)), Number(read(next)));
      result := result * 0x1_0000_0000 % LIMIT + Number(read(next));
      next, cells := next + 1, cells - 1;
    }
  }

  lemma NoCells(read: nat -> Word, at: nat)
    ensures BigEndian(Window(read, at, 0)) == 0
  {
  }

  lemma WindowSize(read: nat -> Word, at: nat, n: nat)
    ensures |Window(read, at, n)| == n
  {
  }

  function PairSize(c: Counts): nat { AtLeastZero(c.address) + AtLeastZero(c.size) }

  /** The (base, size) pairs of a reg value. */
  function Pairs(value: seq<Word>, c: Counts): seq<Range> {
    var a, n := AtLeastZero(c.address), PairSize(c);
    if n == 0 || |value| < n then [] else
    [Range(BigEndian(value[..a]) % LIMIT, BigEndian(value[a..n]) % LIMIT)] + Pairs(value[n..], c)
  }

  /** The test of mem_done; the sum wraps around. */
  predicate Contains(r: Range, probe: nat) {
    r.base <= probe <= (r.base + r.size) % LIMIT
  }

  /** The size of the last range that contains the probe address, or `otherwise`. */
  function LastSize(ranges: seq<Range>, probe: nat, otherwise: nat): nat {
    if ranges == [] then otherwise
    else LastSize(ranges[1..], probe, if Contains(ranges[0], probe) then ranges[0].size else otherwise)
  }

  /** Range i is the last one that contains the probe address. */
  ghost predicate IsLast(ranges: seq<Range>, probe: nat, i: nat) {
    i < |ranges| && Contains(ranges[i], probe) && forall j :: i < j < |ranges| ==> !Contains(ranges[j], probe)
  }

  lemma {:induction false} LastSizeIsLast(ranges: seq<Range>, probe: nat, otherwise: nat, i: nat)
    requires IsLast(ranges, probe, i)
    ensures LastSize(ranges, probe, otherwise) == ranges[i].size
  {
    hide Contains;
    var now := if Contains(ranges[0], probe) then ranges[0].size else otherwise;
    if i > 0 {
      LastSizeIsLast(ranges[1..], probe, now, i - 1);
    } else {
      LastSizeNone(ranges[1..], probe, now);
    }
  }

  lemma {:induction false} LastSizeNone(ranges: seq<Range>, probe: nat, otherwise: nat)
    requires forall i :: 0 <= i < |ranges| ==> !Contains(ranges[i], probe)
    ensures LastSize(ranges, probe, otherwise) == otherwise
  {
    hide Contains;
    if ranges != [] { LastSizeNone(ranges[1..], probe, otherwise); }
  }

  lemma {:induction false} LastSizeConcat(a: seq<Range>, b: seq<Range>, probe: nat, otherwise: nat)
    ensures LastSize(a + b, probe, otherwise) == LastSize(b, probe, LastSize(a, probe, otherwise))
  {
    if a == [] {
      assert a + b == b;
    } else {
      assert (a + b)[1..] == a[1..] + b;
      LastSizeConcat(a[1..], b, probe, if Contains(a[0], probe) then a[0].size else otherwise);
    }
  }

  /** A length is a whole number of pairs. */
  predicate Splits(length: nat, pair: nat)
    decreases length
  {
    length == 0 || (0 < pair <= length && Splits(length - pair, pair))
  }

  /**
   What a memory node needs: a reg property of whole words and, unless it is empty, a parent
   whose cell counts cut it into whole pairs.
   */
  predicate Whole(r: Record, node: seq<Frame>) {
    && r.found && Number(r.len) % 4 == 0
    && (r.reg != [] ==> |node| > 1 && Splits(|r.reg|, PairSize(node[1].counts)))
  }

  /** The value of a property, and whatever words follow it in the block. */
  function Reading(value: seq<Word>, beyond: nat -> Word): nat -> Word {
    (i: nat) => if i < |value| then value[i] else beyond(i)
  }

  lemma InsideValue(value: seq<Word>, beyond: nat -> Word, at: nat, n: nat)
    requires at + n <= |value|
    ensures Window(Reading(value, beyond), at, n) == value[at..at + n]
  {
  }

  lemma PairsTail(value: seq<Word>, c: Counts, at: nat)
    requires 0 < PairSize(c) && at + PairSize(c) <= |value|
    ensures var a, n := AtLeastZero(c.address), PairSize(c);
      Pairs(value[at..], c) ==
      [Range(BigEndian(value[at..at + a]) % LIMIT, BigEndian(value[at + a..at + n]) % LIMIT)]
      + Pairs(value[at + n..], c)
  {
    hide BigEndian;
    var a, n, v := AtLeastZero(c.address), PairSize(c), value[at..];
    assert v[..a] == value[at..at + a] && v[a..n] == value[at + a..at + n] && v[n..] == value[at + n..];
  }

  /** One (base, size) pair, wherever it lies. */
  method ReadPair(read: nat -> Word, at: nat, c: Counts) returns (range: Range, next: nat)
    ensures next == at + PairSize(c)
    ensures var a, n := AtLeastZero(c.address), AtLeastZero(c.size);
      range == Range(BigEndian(Window(read, at, a)) % LIMIT, BigEndian(Window(read, at + a, n)) % LIMIT)
  {
    hide BigEndian, Window;
    var base, size, mid;
    base, mid := GetCells(read, at, c.address);
    size, next := GetCells(read, mid, c.size);
    range := Range(base, size);
  }

  /** How far the loop of mem_done is: inside the value all is well so far, beyond its end it has gone wrong. */
  ghost predicate Searching(value: seq<Word>, c: Counts, probe: nat, known: nat, at: nat, size: nat) {
    if at <= |value| then
      && (Splits(|value| - at, PairSize(c)) <==> Splits(|value|, PairSize(c)))
      && LastSize(Pairs(value[at..], c), probe, size) == LastSize(Pairs(value, c), probe, known)
    else !Splits(|value|, PairSize(c))
  }

  lemma SearchStarts(value: seq<Word>, c: Counts, probe: nat, known: nat)
    ensures Searching(value, c, probe, known, 0, known)
  {
    assert value[0..] == value;
  }

  lemma SearchNext(value: seq<Word>, beyond: nat -> Word, c: Counts, probe: nat, known: nat, at: nat, size: nat,
                   range: Range)
    requires Searching(value, c, probe, known, at, size) && at < |value| && PairSize(c) > 0
    requires var a, n := AtLeastZero(c.address), AtLeastZero(c.size); var read := Reading(value, beyond);
      range == Range(BigEndian(Window(read, at, a)) % LIMIT, BigEndian(Window(read, at + a, n)) % LIMIT)
    ensures Searching(value, c, probe, known, at + PairSize(c), if Contains(range, probe) then range.size else size)
  {
    hide BigEndian, Window, Contains, Pairs;
    var a, n := AtLeastZero(c.address), PairSize(c);
    if at + n <= |value| {
      InsideValue(value, beyond, at, a);
      InsideValue(value, beyond, at + a, n - a);
      PairsTail(value, c, at);
      FirstPair(range, Pairs(value[at + n..], c), probe, size);
    }
  }

  lemma SearchEnds(value: seq<Word>, c: Counts, probe: nat, known: nat, at: nat, size: nat)
    requires Searching(value, c, probe, known, at, size) && at >= |value|
    ensures at == |value| <==> Splits(|value|, PairSize(c))
    ensures at == |value| ==> size == LastSize(Pairs(value, c), probe, known)
  {
    hide BigEndian;
    if at == |value| { NoPairs(value, c, at); }
  }

  /**
   The loop of mem_done and the assertion after it.  It reads pair after pair, perhaps beyond
   the value; it is right at the end exactly when the value is a whole number of pairs.  With
   pairs of no cells the loop would not end, which counts as a failure.
   */
  method SearchPairs(value: seq<Word>, beyond: nat -> Word, c: Counts, probe: nat, known: nat)
      returns (ok: bool, size: nat)
    ensures ok <==> Splits(|value|, PairSize(c))
    ensures ok ==> size == LastSize(Pairs(value, c), probe, known)
  {
    hide BigEndian, Pairs, Contains, Window, Searching;
    size := known;
    var at := 0;
    SearchStarts(value, c, probe, known);
    while |value| - at > 0
      invariant Searching(value, c, probe, known, at, size)
      decreases |value| - at
    {
      if PairSize(c) == 0 {
        return false, size;
      }
      var range, next := ReadPair(Reading(value, beyond), at, c);
      SearchNext(value, beyond, c, probe, known, at, size, range);
      if Contains(range, probe) {
        size := range.size;
      }
      at := next;
    }
    SearchEnds(value, c, probe, known, at, size);
    ok := at == |value|;
  }

  lemma FirstPair(r: Range, rest: seq<Range>, probe: nat, known: nat)
    ensures LastSize([r] + rest, probe, known) == LastSize(rest, probe, if Contains(r, probe) then r.size else known)
  {
    assert ([r] + rest)[1..] == rest;
  }

  lemma NoPairs(value: seq<Word>, c: Counts, at: nat)
    requires at == |value|
    ensures Pairs(value[at..], c) == []
  {
  }

  // ---- the callbacks over a scan ----

  /** The search so far; `Broken` when an assertion of mem_done fails or its loop cannot end. */
  datatype Search = Search(record: Record, size: nat) | Broken

  function Hear(s: Search, e: Event, probe: nat): Search {
    if s.Broken? then Broken else
    match e
    case Open(_) => s.(record := Cleared)
    case Property(_, name, len, value) => s.(record := Heard(s.record, name, len, value))
    case Done(node) =>
      if !s.record.memory then s
      else if !Whole(s.record, node) then Broken
      else s.(size := LastSize(OwnRanges(s.record, node), probe, s.size))
    case Close(_) => s
  }

  function HearAll(s: Search, events: seq<Event>, probe: nat): Search
    decreases |events|
  {
    if events == [] then s else HearAll(Hear(s, events[0], probe), events[1..], probe)
  }

  lemma {:induction false} HearConcat(s: Search, a: seq<Event>, b: seq<Event>, probe: nat)
    ensures HearAll(s, a + b, probe) == HearAll(HearAll(s, a, probe), b, probe)
    decreases |a|
  {
    hide Hear;
    if a == [] {
      assert a + b == b;
    } else {
      assert (a + b)[1..] == a[1..] + b;
      HearConcat(Hear(s, a[0], probe), a[1..], b, probe);
    }
  }

  lemma {:induction false} BrokenStays(events: seq<Event>, probe: nat)
    ensures HearAll(Broken, events, probe) == Broken
  {
    if events != [] { BrokenStays(events[1..], probe); }
  }

  // ---- what the tree says ----

  /** The record of a node's own properties. */
  function OwnRecord(strings: seq<Byte>, body: Body, r: Record): Record {
    match body
    case End => r
    case Nop(rest) => OwnRecord(strings, rest, r)
    case Prop(off, len, value, rest) => OwnRecord(strings, rest, Heard(r, StringAt(strings, Number(off)), len, value))
    case Sub(_, _, _) => r
  }

  function OwnRanges(r: Record, node: seq<Frame>): seq<Range> {
    if r.memory && |node| > 1 then Pairs(r.reg, node[1].counts) else []
  }

  /** All pairs of all memory nodes in the subtree of a node, in document order. */
  function Ranges(strings: seq<Byte>, body: Body, node: seq<Frame>): seq<Range>
    decreases body, 1
  {
    var settled := Settled(strings, body, node);
    OwnRanges(OwnRecord(strings, body, Cleared), settled) + ChildRanges(strings, body, settled, DefaultCounts)
  }

  function ChildRanges(strings: seq<Byte>, body: Body, node: seq<Frame>, counts: Counts): seq<Range>
    decreases body, 0
  {
    match body
    case End => []
    case Nop(rest) => ChildRanges(strings, rest, node, counts)
    case Prop(_, _, _, rest) => ChildRanges(strings, rest, node, counts)
    case Sub(name, b, rest) =>
      var child := [Frame(name, counts)] + node;
      Ranges(strings, b, child) + ChildRanges(strings, rest, node, Settled(strings, b, child)[0].counts)
  }

  /** Every memory node has a parent and a reg property of whole pairs. */
  predicate AllWhole(strings: seq<Byte>, body: Body, node: seq<Frame>)
    decreases body, 1
  {
    var settled, own := Settled(strings, body, node), OwnRecord(strings, body, Cleared);
    (own.memory ==> Whole(own, settled)) && ChildrenWhole(strings, body, settled, DefaultCounts)
  }

  predicate ChildrenWhole(strings: seq<Byte>, body: Body, node: seq<Frame>, counts: Counts)
    decreases body, 0
  {
    match body
    case End => true
    case Nop(rest) => ChildrenWhole(strings, rest, node, counts)
    case Prop(_, _, _, rest) => ChildrenWhole(strings, rest, node, counts)
    case Sub(name, b, rest) =>
      var child := [Frame(name, counts)] + node;
      AllWhole(strings, b, child) && ChildrenWhole(strings, rest, node, Settled(strings, b, child)[0].counts)
  }

  // ---- the search finds what the tree says ----

  /** The search broke off unless `ok`, and otherwise knows this size. */
  predicate Knows(s: Search, ok: bool, size: nat) {
    if ok then s.Search? && s.size == size else s.Broken?
  }

  lemma {:induction false} HearProperties(strings: seq<Byte>, body: Body, node: seq<Frame>, r: Record, size: nat,
                                          probe: nat)
    ensures HearAll(Search(r, size), PropertyEvents(strings, body, node), probe) ==
      Search(OwnRecord(strings, body, r), size)
    decreases body
  {
    hide StringAt, Noted, Heard, Number;
    match body
    case End =>
    case Nop(rest) => HearProperties(strings, rest, node, r, size, probe);
    case Prop(off, len, value, rest) =>
      var name := StringAt(strings, Number(off));
      var now := Noted(node, name, value);
      var e := Property(now, name, len, value);
      HearFirst(Search(r, size), e, PropertyEvents(strings, rest, now), probe);
      HearProperties(strings, rest, now, Heard(r, name, len, value), size, probe);
    case Sub(_, _, _) =>
  }

  lemma HearFirst(s: Search, e: Event, rest: seq<Event>, probe: nat)
    ensures HearAll(s, [e] + rest, probe) == HearAll(Hear(s, e, probe), rest, probe)
  {
    assert ([e] + rest)[1..] == rest;
  }

  /** A node: its own properties decide before any subnode can touch the record. */
  lemma {:induction false} HearTree(strings: seq<Byte>, b: Body, node: seq<Frame>, size: nat, probe: nat)
    requires node != []
    ensures Knows(HearAll(Search(Cleared, size), TreeEvents(strings, b, node, DefaultCounts), probe),
                  AllWhole(strings, b, node), LastSize(Ranges(strings, b, node), probe, size))
    decreases b, 1
  {
    hide PropertyEvents, ChildEvents, OwnRecord, Settled, Pairs, Whole, LastSize, ChildRanges, ChildrenWhole, HearAll;
    var settled, own := Settled(strings, b, node), OwnRecord(strings, b, Cleared);
    var props, after := PropertyEvents(strings, b, node), ChildEvents(strings, b, settled, DefaultCounts);
    var s0 := Search(Cleared, size);
    HearConcat(s0, props + [Done(settled)], after, probe);
    HearConcat(s0, props, [Done(settled)], probe);
    HearProperties(strings, b, node, Cleared, size, probe);
    HearOne(Search(own, size), Done(settled), probe);
    OwnCounted(own, settled, size, probe);
    LastSizeConcat(OwnRanges(own, settled), ChildRanges(strings, b, settled, DefaultCounts), probe, size);
    var s1 := Hear(Search(own, size), Done(settled), probe);
    if s1.Broken? {
      BrokenStays(after, probe);
    } else {
      HearChildren(strings, b, settled, DefaultCounts, s1.record, s1.size, probe);
    }
  }

  lemma HearOne(s: Search, e: Event, probe: nat)
    ensures HearAll(s, [e], probe) == Hear(s, e, probe)
  {
    hide Hear;
    assert [e][1..] == [];
  }

  lemma OwnCounted(own: Record, node: seq<Frame>, size: nat, probe: nat)
    requires node != []
    ensures Knows(Hear(Search(own, size), Done(node), probe), own.memory ==> Whole(own, node),
                  LastSize(OwnRanges(own, node), probe, size))
  {
  }

  lemma {:induction false} HearChildren(strings: seq<Byte>, body: Body, node: seq<Frame>, counts: Counts, r: Record,
                                        size: nat, probe: nat)
    ensures Knows(HearAll(Search(r, size), ChildEvents(strings, body, node, counts), probe),
                  ChildrenWhole(strings, body, node, counts),
                  LastSize(ChildRanges(strings, body, node, counts), probe, size))
    decreases body, 0
  {
    hide TreeEvents, Settled, Ranges, AllWhole, Hear, SubEvents;
    match body
    case End =>
    case Nop(rest) => HearChildren(strings, rest, node, counts, r, size, probe);
    case Prop(_, _, _, rest) => HearChildren(strings, rest, node, counts, r, size, probe);
    case Sub(name, b, rest) =>
      var child := [Frame(name, counts)] + node;
      var counts' := Settled(strings, b, child)[0].counts;
      HearConcat(Search(r, size), SubEvents(strings, b, child), ChildEvents(strings, rest, node, counts'), probe);
      HearSub(strings, b, child, r, size, probe);
      LastSizeConcat(Ranges(strings, b, child), ChildRanges(strings, rest, node, counts'), probe, size);
      var s1 := HearAll(Search(r, size), SubEvents(strings, b, child), probe);
      if s1.Broken? {
        BrokenStays(ChildEvents(strings, rest, node, counts'), probe);
      } else {
        HearChildren(strings, rest, node, counts', s1.record, s1.size, probe);
      }
  }

  lemma {:induction false} HearSub(strings: seq<Byte>, b: Body, child: seq<Frame>, r: Record, size: nat, probe: nat)
    requires child != []
    ensures Knows(HearAll(Search(r, size), SubEvents(strings, b, child), probe), AllWhole(strings, b, child),
                  LastSize(Ranges(strings, b, child), probe, size))
    decreases b, 2
  {
    hide TreeEvents, Settled, Ranges, AllWhole, HearAll;
    var inner, close := TreeEvents(strings, b, child, DefaultCounts), Close(Settled(strings, b, child));
    assert SubEvents(strings, b, child) == [Open(child)] + (inner + [close]);
    HearFirst(Search(r, size), Open(child), inner + [close], probe);
    HearConcat(Search(Cleared, size), inner, [close], probe);
    HearTree(strings, b, child, size, probe);
    HearOne(HearAll(Search(Cleared, size), inner, probe), close, probe);
  }

  // ---- one memory node ----

  /** A root that sets both counts to two, and in it one memory node with one range. */
  function Simple(a: Word, s: Word, d: Word, g: Word, root: seq<Byte>, name: seq<Byte>, reg: seq<Word>): Body {
    Sub(root, Prop(a, 4, [2], Prop(s, 4, [2],
      Sub(name, Prop(d, 7, Pack(Ascii("memory")), Prop(g, 16, reg, End)), End))), End)
  }

  /** The node itself: memory, with its reg value. */
  lemma SimpleNode(strings: seq<Byte>, d: Word, g: Word, value: seq<Word>, node: seq<Frame>)
    requires node != [] && StringAt(strings, Number(d)) == Ascii("device_type")
    requires StringAt(strings, Number(g)) == Ascii("reg")
    ensures var b := Prop(d, 7, Pack(Ascii("memory")), Prop(g, 16, value, End));
      Settled(strings, b, node) == node && OwnRecord(strings, b, Cleared) == Record(true, true, value, 16)
  {
    hide StringAt, Ascii, Pack, Number, Heard;
    var b1 := Prop(g, 16, value, End);
    NamesDiffer();
    MemoryName();
    PropertyTells(Cleared, Ascii("device_type"), 7, Pack(Ascii("memory")), Ascii("memory"));
    PropertyTells(Record(true, false, [], 0), Ascii("reg"), 16, value, []);
    assert Settled(strings, b1, node) == Settled(strings, End, node) == node;
    assert OwnRecord(strings, b1, Record(true, false, [], 0)) == OwnRecord(strings, End, Record(true, true, value, 16));
  }

  lemma SimpleRoot(strings: seq<Byte>, a: Word, s: Word, rest: Body, top: seq<Frame>)
    requires top != [] && rest.Sub? && StringAt(strings, Number(a)) == Ascii("#address-cells")
    requires StringAt(strings, Number(s)) == Ascii("#size-cells")
    ensures Settled(strings, Prop(a, 4, [2], Prop(s, 4, [2], rest)), top)[0].counts == Counts(2, 2)
  {
    hide StringAt, Ascii, Number, Settled;
    NamesDiffer();
    SmallNumbers();
    var inner := Prop(s, 4, [2], rest);
    CountsAreLast(strings, Prop(a, 4, [2], inner), top);
    assert LastCell(strings, inner, Ascii("#address-cells"), 2) == 2;
    assert LastCell(strings, inner, Ascii("#size-cells"), top[0].counts.size) == 2;
  }

  /** Its one range is the pair of 64-bit numbers in reg, and it is whole; a, s, d and g are offsets of names. */
  lemma SimpleTree(strings: seq<Byte>, a: Word, s: Word, d: Word, g: Word, root: seq<Byte>, name: seq<Byte>,
                   c0: Word, c1: Word, c2: Word, c3: Word)
    requires StringAt(strings, Number(a)) == Ascii("#address-cells")
    requires StringAt(strings, Number(s)) == Ascii("#size-cells")
    requires StringAt(strings, Number(d)) == Ascii("device_type") && StringAt(strings, Number(g)) == Ascii("reg")
    ensures var body := Simple(a, s, d, g, root, name, [c0, c1, c2, c3]);
      && ChildrenWhole(strings, body, [], DefaultCounts)
      && ChildRanges(strings, body, [], DefaultCounts) ==
         [Range(Number(c0) * 0x1_0000_0000 + Number(c1), Number(c2) * 0x1_0000_0000 + Number(c3))]
  {
    hide StringAt, Ascii, Pack, BigEndian, Number, Settled, OwnRecord, Pairs;
    var value := [c0, c1, c2, c3];
    var b := Prop(d, 7, Pack(Ascii("memory")), Prop(g, 16, value, End));
    var sub := Sub(name, b, End);
    var inner1 := Prop(s, 4, [2], sub);
    var inner := Prop(a, 4, [2], inner1);
    var top := [Frame(root, DefaultCounts)];
    SmallNumbers();
    SimpleRoot(strings, a, s, sub, top);
    var settled := Settled(strings, inner, top);
    var node := [Frame(name, DefaultCounts)] + settled;
    SimpleNode(strings, d, g, value, node);
    OnePair(value);
    TwoCells(c0, c1);
    TwoCells(c2, c3);
    NoSubnodes(strings, d, g, value, node);
    assert Ranges(strings, b, node) == Pairs(value, Counts(2, 2)) + [];
    assert AllWhole(strings, b, node);
    assert OwnRecord(strings, inner, Cleared) == Cleared by { RootRecord(strings, a, s, sub); }
    assert ChildRanges(strings, inner, settled, DefaultCounts) == ChildRanges(strings, inner1, settled, DefaultCounts)
      == ChildRanges(strings, sub, settled, DefaultCounts) == Ranges(strings, b, node) + [];
    assert ChildrenWhole(strings, inner, settled, DefaultCounts) ==
      ChildrenWhole(strings, inner1, settled, DefaultCounts) == ChildrenWhole(strings, sub, settled, DefaultCounts);
    assert top + [] == top;
    assert ChildrenWhole(strings, sub, settled, DefaultCounts);
    assert AllWhole(strings, inner, top);
    assert ChildrenWhole(strings, Sub(root, inner, End), [], DefaultCounts);
    assert Ranges(strings, inner, top) == [] + ChildRanges(strings, inner, settled, DefaultCounts);
    assert ChildRanges(strings, Sub(root, inner, End), [], DefaultCounts) == Ranges(strings, inner, top) + [];
  }

  /** A single range decides the size: its own if the probe address lies in it, both ends included, and otherwise 0. */
  lemma SingleRange(base: nat, size: nat, probe: nat)
    requires base + size < 0x1_0000_0000_0000_0000
    ensures LastSize([Range(base, size)], probe, 0) == if base <= probe <= base + size then size else 0
  {
    assert [Range(base, size)][1..] == [];
  }

  lemma RootRecord(strings: seq<Byte>, a: Word, s: Word, sub: Body)
    requires sub.Sub? && StringAt(strings, Number(a)) == Ascii("#address-cells")
    requires StringAt(strings, Number(s)) == Ascii("#size-cells")
    ensures OwnRecord(strings, Prop(a, 4, [2], Prop(s, 4, [2], sub)), Cleared) == Cleared
  {
    hide StringAt, Ascii, Number, TextOf;
    NamesDiffer();
    assert OwnRecord(strings, Prop(s, 4, [2], sub), Cleared) == OwnRecord(strings, sub, Cleared);
  }

  lemma NoSubnodes(strings: seq<Byte>, d: Word, g: Word, value: seq<Word>, node: seq<Frame>)
    ensures var b := Prop(d, 7, Pack(Ascii("memory")), Prop(g, 16, value, End));
      && ChildRanges(strings, b, node, DefaultCounts) == [] && ChildrenWhole(strings, b, node, DefaultCounts)
  {
    hide Ascii, Pack;
    var b1 := Prop(g, 16, value, End);
    assert ChildRanges(strings, b1, node, DefaultCounts) == ChildRanges(strings, End, node, DefaultCounts);
    assert ChildrenWhole(strings, b1, node, DefaultCounts) == ChildrenWhole(strings, End, node, DefaultCounts);
  }

  lemma SmallNumbers()
    ensures ToInt(2) == 2 && Number(16) == 16
  {
  }

  lemma OnePair(value: seq<Word>)
    requires |value| == 4
    ensures Pairs(value, Counts(2, 2)) ==
      [Range(BigEndian([value[0], value[1]]) % LIMIT, BigEndian([value[2], value[3]]) % LIMIT)]
    ensures Splits(4, 4)
  {
    hide BigEndian;
    assert value[..2] == [value[0], value[1]] && value[2..4] == [value[2], value[3]] && value[4..] == [];
    assert Pairs([], Counts(2, 2)) == [];
  }

  // ---- query_mem ----

  /** mem_done: its two assertions, its loop, and the parent it needs only inside the loop. */
  method MemDone(r: Record, node: seq<Frame>, probe: nat, known: nat, beyond: nat -> Word) returns (ok: bool, size: nat)
    ensures Hear(Search(r, known), Done(node), probe) == if ok then Search(r, size) else Broken
  {
    hide LastSize, Pairs;
    size := known;
    if !r.memory { return true, known; }
    if !(r.found && Number(r.len) % 4 == 0) { return false, known; }
    if r.reg == [] {
      EmptyReg(r, node, probe, known);
      return true, known;
    }
    if |node| <= 1 { return false, known; }
    ok, size := SearchPairs(r.reg, beyond, node[1].counts, probe, known);
  }

  lemma EmptyReg(r: Record, node: seq<Frame>, probe: nat, known: nat)
    requires r.reg == []
    ensures LastSize(OwnRanges(r, node), probe, known) == known
  {
  }

  /**
   query_mem: it fails on a header the scanner does not understand.  On the block of a
   well-formed tree it succeeds exactly when every memory node is whole and the last range
   that contains the probe address, in document order, is not empty; g_mem_size is its size.
   */
  method QueryMem(block: array<Word>, probe: nat, beyond: nat -> Word, ghost body: Body) returns (ok: bool, size: nat)
    requires block.Length >= 10 && Describes(block[..], body) && NoProps(body)
    modifies block
    ensures !old(Understood(block[..])) ==> !ok
    ensures old(Understood(block[..])) ==>
      var strings := old(BytesFrom(block[..], Number(Bswap(block[3]))));
      var found := LastSize(ChildRanges(strings, body, [], DefaultCounts), probe, 0);
      ok == (ChildrenWhole(strings, body, [], DefaultCounts) && found > 0) && (ok ==> size == found)
  {
    hide IsBlock, BodyOk, Cells, LastSize, ChildRanges, ChildrenWhole, Hear, TreeEvents, Heard, BytesFrom, Understood,
      OnlyWithin, Describes, Bswap, Number;
    ghost var strings := BytesFrom(block[..], Number(Bswap(block[3])));
    var events := FdtScan(block, _ => false, body);
    TopLevel(strings, body);
    HearChildren(strings, body, [], DefaultCounts, Cleared, 0, probe);
    var record, i := Cleared, 0;
    size := 0;
    ghost var whole := HearAll(Search(record, size), events, probe);
    assert events[0..] == events;
    while i < |events|
      invariant 0 <= i <= |events| && HearAll(Search(record, size), events[i..], probe) == whole
    {
      assert events[i..][1..] == events[i + 1..];
      HearNext(record, size, events[i], probe);
      match events[i] {
        case Open(_) => record := Cleared;
        case Property(_, name, len, value) => record := Heard(record, name, len, value);
        case Done(node) =>
          ok, size := MemDone(record, node, probe, size, beyond);
          if !ok {
            BrokenStays(events[i + 1..], probe);
            return;
          }
        case Close(_) =>
      }
      i := i + 1;
    }
    ok := size > 0;
  }

  lemma HearNext(record: Record, size: nat, e: Event, probe: nat)
    ensures e.Open? ==> Hear(Search(record, size), e, probe) == Search(Cleared, size)
    ensures e.Property? ==> Hear(Search(record, size), e, probe) == Search(Heard(record, e.name, e.len, e.value), size)
    ensures e.Close? ==> Hear(Search(record, size), e, probe) == Search(record, size)
  {
  }

  lemma TopLevel(strings: seq<Byte>, body: Body)
    requires NoProps(body)
    ensures TreeEvents(strings, body, [], DefaultCounts) == ChildEvents(strings, body, [], DefaultCounts)
  {
    hide ChildEvents, Settled, PropertyEvents;
    NoPropsNothing(strings, body, []);
    assert [] + [] + ChildEvents(strings, body, [], DefaultCounts) == ChildEvents(strings, body, [], DefaultCounts);
  }
}
