/**
 Flattened device trees (Devicetree Specification, sections 5.4 and 2.3.5): the structure
 block of a tree, the callbacks a scan of it makes, and the deletion of subtrees.
 */
module DeviceTree {

  type Word = bv32
  type Byte = bv8

  const FDT_BEGIN_NODE: Word := 1
  const FDT_END_NODE: Word := 2
  const FDT_PROP: Word := 3
  const FDT_NOP: Word := 4
  const FDT_END: Word := 9

  /** The byte reversal of dts_parse.c, in its two steps. */
  function Bswap(x: Word): Word {
    var y: Word := ((x & 0x00FF_00FF) << 8) | ((x & 0xFF00_FF00) >> 8);
    ((y & 0x0000_FFFF) << 16) | ((y & 0xFFFF_0000) >> 16)
  }

  function Number(w: Word): nat { w as nat }

  /** The cells a value of so many bytes takes. */
  function WholeCells(len: Word): nat { (Number(len) + 3) / 4 }

  /** A big-endian cell from its bytes. */
  function Cell(b0: Byte, b1: Byte, b2: Byte, b3: Byte): Word {
    ((b0 as Word) << 24) | ((b1 as Word) << 16) | ((b2 as Word) << 8) | (b3 as Word)
  }

  /** Byte k of a word as a little-endian machine stores it. */
  function ByteOf(w: Word, k: nat): Byte
    requires k < 4
  {
    var low: Word := (if k == 0 then w else if k == 1 then w >> 8 else if k == 2 then w >> 16 else w >> 24) & 0xFF;
    low as Byte
  }

  lemma BswapTwice(x: Word)
    ensures Bswap(Bswap(x)) == x
  {
  }

  /** bswap turns a cell read by a little-endian machine into the number its bytes spell. */
  lemma BswapReversesBytes(raw: Word)
    ensures Bswap(raw) == Cell(ByteOf(raw, 0), ByteOf(raw, 1), ByteOf(raw, 2), ByteOf(raw, 3))
  {
  }

  lemma BytesOfCell(b0: Byte, b1: Byte, b2: Byte, b3: Byte, raw: Word)
    requires Bswap(raw) == Cell(b0, b1, b2, b3)
    ensures ByteOf(raw, 0) == b0 && ByteOf(raw, 1) == b1 && ByteOf(raw, 2) == b2 && ByteOf(raw, 3) == b3
  {
  }

  /** The first of four bytes is the highest of the cell. */
  lemma CellIsBigEndian(b0: Byte, b1: Byte, b2: Byte, b3: Byte)
    ensures var w := Cell(b0, b1, b2, b3);
      && ((w >> 24) & 0xFF) as Byte == b0 && ((w >> 16) & 0xFF) as Byte == b1
      && ((w >> 8) & 0xFF) as Byte == b2 && (w & 0xFF) as Byte == b3
  {
  }

  // ---- trees and their layout ----

  /** What follows inside a node: padding, properties, subnodes, and the end. */
  datatype Body =
    | End
    | Nop(rest: Body)
    | Prop(off: Word, len: Word, value: seq<Word>, rest: Body)
    | Sub(name: seq<Byte>, body: Body, rest: Body)

  /** A NUL-terminated name, padded to whole cells. */
  function Pack(name: seq<Byte>): (cells: seq<Word>)
    ensures |cells| == |name| / 4 + 1
  {
    if |name| < 4 then
      [Cell(if |name| > 0 then name[0] else 0, if |name| > 1 then name[1] else 0, if |name| > 2 then name[2] else 0, 0)]
    else [Cell(name[0], name[1], name[2], name[3])] + Pack(name[4..])
  }

  /** The structure block of a body, in cells. */
  function Cells(body: Body): seq<Word> {
    match body
    case End => []
    case Nop(rest) => [4] + Cells(rest)
    case Prop(off, len, value, rest) => [3, len, off] + value + Cells(rest)
    case Sub(name, b, rest) => SubCells(name, Cells(b)) + Cells(rest)
  }

  function SubCells(name: seq<Byte>, inner: seq<Word>): (cells: seq<Word>)
    ensures |cells| == |name| / 4 + |inner| + 3
  {
    [1] + Pack(name) + inner + [2]
  }

  /** How many nodes a body holds, at any depth. */
  function Count(body: Body): nat {
    match body
    case End => 0
    case Nop(rest) => Count(rest)
    case Prop(_, _, _, rest) => Count(rest)
    case Sub(_, b, rest) => Count(b) + 1 + Count(rest)
  }

  predicate NoProps(body: Body) {
    match body
    case End => true
    case Nop(rest) => NoProps(rest)
    case Prop(_, _, _, _) => false
    case Sub(_, _, rest) => NoProps(rest)
  }

  /** The C string at an offset of the strings block. */
  function StringAt(strings: seq<Byte>, off: nat): seq<Byte>
    decreases |strings| - off
  {
    if off >= |strings| || strings[off] == 0 then [] else [strings[off]] + StringAt(strings, off + 1)
  }

  function Ascii(s: string): seq<Byte> {
    seq(|s|, i requires 0 <= i < |s| => (s[i] as int % 256) as Byte)
  }

  /** Well-formed: properties come first, values fill whole cells, cell counts are numbers, names have no NUL. */
  predicate BodyOk(strings: seq<Byte>, body: Body) {
    match body
    case End => true
    case Nop(rest) => BodyOk(strings, rest)
    case Prop(off, len, value, rest) => PropOk(strings, off, len, value) && BodyOk(strings, rest)
    case Sub(name, b, rest) => NameOk(name) && BodyOk(strings, b) && NoProps(rest) && BodyOk(strings, rest)
  }

  predicate PropOk(strings: seq<Byte>, off: Word, len: Word, value: seq<Word>) {
    && Number(len) < 0x7FFF_FFFC && |value| == WholeCells(len)
    && (IsCellCount(StringAt(strings, Number(off))) ==> value != [])
  }

  predicate NameOk(name: seq<Byte>) {
    forall i :: 0 <= i < |name| ==> name[i] != 0
  }

  lemma BodyParts(strings: seq<Byte>, body: Body)
    requires BodyOk(strings, body)
    ensures match body
      case End => true
      case Nop(rest) => BodyOk(strings, rest)
      case Prop(_, _, _, rest) => BodyOk(strings, rest)
      case Sub(_, b, rest) => BodyOk(strings, b) && BodyOk(strings, rest)
  {
  }

  predicate IsCellCount(name: seq<Byte>) {
    name == Ascii("#address-cells") || name == Ascii("#size-cells")
  }

  // ---- callbacks ----

  datatype Counts = Counts(address: int, size: int)

  const DefaultCounts := Counts(2, 1)

  /** A node record: its name, and the cell counts it sets for its children. */
  datatype Frame = Frame(name: seq<Byte>, counts: Counts)

  /** A callback sees a node and, through its parent links, the nodes around it, innermost first. */
  datatype Event =
    | Open(node: seq<Frame>)
    | Property(node: seq<Frame>, name: seq<Byte>, len: Word, value: seq<Word>)
    | Done(node: seq<Frame>)
    | Close(node: seq<Frame>)

  /** Conversion to a 32-bit int. */
  function ToInt(w: Word): (i: int)
    ensures -0x8000_0000 <= i < 0x8000_0000 && (i - Number(w)) % 0x1_0000_0000 == 0
  {
    if Number(w) >= 0x8000_0000 then Number(w) - 0x1_0000_0000 else Number(w)
  }

  /** A property may set the node's cell counts. */
  function Noted(node: seq<Frame>, name: seq<Byte>, value: seq<Word>): (r: seq<Frame>)
    ensures |r| == |node| && (node != [] ==> r[1..] == node[1..] && r[0].name == node[0].name)
  {
    if node == [] || value == [] then node
    else if name == Ascii("#address-cells") then
      node[0 := node[0].(counts := node[0].counts.(address := ToInt(value[0])))]
    else if name == Ascii("#size-cells") then node[0 := node[0].(counts := node[0].counts.(size := ToInt(value[0])))]
    else node
  }

  /** The node record once all properties of the body are seen. */
  function Settled(strings: seq<Byte>, body: Body, node: seq<Frame>): (r: seq<Frame>)
    ensures |r| == |node| && (node != [] ==> r[1..] == node[1..] && r[0].name == node[0].name)
  {
    match body
    case End => node
    case Nop(rest) => Settled(strings, rest, node)
    case Prop(off, _, value, rest) => Settled(strings, rest, Noted(node, StringAt(strings, Number(off)), value))
    case Sub(_, _, _) => node
  }

  function PropertyEvents(strings: seq<Byte>, body: Body, node: seq<Frame>): seq<Event> {
    match body
    case End => []
    case Nop(rest) => PropertyEvents(strings, rest, node)
    case Prop(off, len, value, rest) =>
      var name := StringAt(strings, Number(off));
      var now := Noted(node, name, value);
      [Property(now, name, len, value)] + PropertyEvents(strings, rest, now)
    case Sub(_, _, _) => []
  }

  /**
   The subnodes in order.  The record of a subnode starts with the counts that the previous
   one left: they are reset once per level, not once per node.
   */
  function ChildEvents(strings: seq<Byte>, body: Body, node: seq<Frame>, counts: Counts): seq<Event>
    decreases body, 0
  {
    match body
    case End => []
    case Nop(rest) => ChildEvents(strings, rest, node, counts)
    case Prop(_, _, _, rest) => ChildEvents(strings, rest, node, counts)
    case Sub(name, b, rest) =>
      var child := [Frame(name, counts)] + node;
      SubEvents(strings, b, child) + ChildEvents(strings, rest, node, Settled(strings, b, child)[0].counts)
  }

  /** One node: open, its contents, close. */
  function SubEvents(strings: seq<Byte>, b: Body, child: seq<Frame>): seq<Event>
    decreases b, 2
  {
    [Open(child)] + TreeEvents(strings, b, child, DefaultCounts) + [Close(Settled(strings, b, child))]
  }

  /** The contents of a node: its properties, done exactly once, then its subnodes. */
  function TreeEvents(strings: seq<Byte>, body: Body, node: seq<Frame>, counts: Counts): seq<Event>
    decreases body, 1
  {
    var settled := Settled(strings, body, node);
    PropertyEvents(strings, body, node) + DoneEvent(settled) + ChildEvents(strings, body, settled, counts)
  }

  /** There is no node at the top level, hence no done. */
  function DoneEvent(node: seq<Frame>): seq<Event> {
    if node == [] then [] else [Done(node)]
  }

  // ---- cell counts ----

  /** The first cell of the last property of that name, or `otherwise`. */
  function LastCell(strings: seq<Byte>, body: Body, name: seq<Byte>, otherwise: int): int {
    match body
    case End => otherwise
    case Nop(rest) => LastCell(strings, rest, name, otherwise)
    case Prop(off, _, value, rest) =>
      var here := StringAt(strings, Number(off)) == name && value != [];
      LastCell(strings, rest, name, if here then ToInt(value[0]) else otherwise)
    case Sub(_, _, _) => otherwise
  }

  lemma Different()
    ensures Ascii("#address-cells") != Ascii("#size-cells")
  {
    assert |Ascii("#address-cells")| == 14 && |Ascii("#size-cells")| == 11;
  }

  /** A character below 256 is its own byte. */
  lemma AsciiBytes(s: string)
    ensures |Ascii(s)| == |s| && forall i :: 0 <= i < |s| && s[i] as int < 256 ==> Ascii(s)[i] as int == s[i] as int
  {
    forall i | 0 <= i < |s| && s[i] as int < 256 ensures Ascii(s)[i] as int == s[i] as int {
      ByteOfNumber(s[i] as int);
    }
  }

  lemma ByteOfNumber(n: nat)
    requires n < 256
    ensures (n % 256) as Byte as int == n
  {
  }

  /** A node's counts are those of its last #address-cells and #size-cells properties, or what it started with. */
  lemma {:induction false} CountsAreLast(strings: seq<Byte>, body: Body, node: seq<Frame>)
    requires node != []
    ensures Settled(strings, body, node)[0].counts ==
      Counts(LastCell(strings, body, Ascii("#address-cells"), node[0].counts.address),
             LastCell(strings, body, Ascii("#size-cells"), node[0].counts.size))
  {
    hide StringAt, Ascii, Number;
    Different();
    match body
    case End =>
    case Nop(rest) => CountsAreLast(strings, rest, node);
    case Prop(off, _, value, rest) => CountsAreLast(strings, rest, Noted(node, StringAt(strings, Number(off)), value));
    case Sub(_, _, _) =>
  }

  /** The first subnode of a node starts with two address cells and one size cell, whatever lies before it. */
  lemma FirstSubnode(strings: seq<Byte>, body: Body, node: seq<Frame>, name: seq<Byte>, b: Body, rest: Body)
    requires FirstSub(body) == Sub(name, b, rest)
    ensures var events := ChildEvents(strings, body, node, DefaultCounts);
      events != [] && events[0] == Open([Frame(name, Counts(2, 1))] + node)
  {
    hide ChildEvents, FirstSub;
    FirstOpened(strings, body, node, DefaultCounts, name, b, rest);
  }

  /**
   A later subnode starts with what the one before it was left with: the last counts that one
   set, or else those it had started with itself.
   */
  lemma NextSubnode(strings: seq<Byte>, node: seq<Frame>, counts: Counts, name: seq<Byte>, b: Body, rest: Body,
                    name': seq<Byte>, b': Body, rest': Body)
    requires FirstSub(rest) == Sub(name', b', rest')
    ensures var k := |SubEvents(strings, b, [Frame(name, counts)] + node)|;
      var events := ChildEvents(strings, Sub(name, b, rest), node, counts);
      var left := Counts(LastCell(strings, b, Ascii("#address-cells"), counts.address),
                         LastCell(strings, b, Ascii("#size-cells"), counts.size));
      k < |events| && events[k] == Open([Frame(name', left)] + node)
  {
    hide TreeEvents, Settled, LastCell, Ascii;
    var child := [Frame(name, counts)] + node;
    CountsAreLast(strings, b, child);
    FirstOpened(strings, rest, node, Settled(strings, b, child)[0].counts, name', b', rest');
  }

  lemma {:induction false} FirstOpened(strings: seq<Byte>, body: Body, node: seq<Frame>, counts: Counts,
                                       name: seq<Byte>, b: Body, rest: Body)
    requires FirstSub(body) == Sub(name, b, rest)
    ensures var events := ChildEvents(strings, body, node, counts);
      events != [] && events[0] == Open([Frame(name, counts)] + node)
  {
    hide TreeEvents, Settled;
    match body
    case Nop(r) => FirstOpened(strings, r, node, counts, name, b, rest);
    case Prop(_, _, _, r) => FirstOpened(strings, r, node, counts, name, b, rest);
    case Sub(_, _, _) =>
  }

  /** What is left of a body from its first subnode on. */
  function FirstSub(body: Body): Body {
    match body
    case Nop(rest) => FirstSub(rest)
    case Prop(_, _, _, rest) => FirstSub(rest)
    case _ => body
  }

  // ---- the order of closing ----

  function Closes(events: seq<Event>): nat {
    if events == [] then 0 else Closes(events[..|events| - 1]) + if events[|events| - 1].Close? then 1 else 0
  }

  lemma {:induction false} ClosesAdd(a: seq<Event>, b: seq<Event>)
    ensures Closes(a + b) == Closes(a) + Closes(b)
    decreases |b|
  {
    if b == [] {
      assert a + b == a;
    } else {
      assert (a + b)[..|a + b| - 1] == a + b[..|b| - 1];
      ClosesAdd(a, b[..|b| - 1]);
    }
  }

  lemma {:induction false} PropertiesCloseNothing(strings: seq<Byte>, body: Body, node: seq<Frame>)
    ensures Closes(PropertyEvents(strings, body, node)) == 0
  {
    hide Noted, StringAt, Number, Closes;
    NoneCloses();
    match body
    case End =>
    case Nop(rest) => PropertiesCloseNothing(strings, rest, node);
    case Prop(off, len, value, rest) =>
      var now := Noted(node, StringAt(strings, Number(off)), value);
      PropertiesCloseNothing(strings, rest, now);
      ClosesOne(Property(now, StringAt(strings, Number(off)), len, value));
      ClosesAdd([Property(now, StringAt(strings, Number(off)), len, value)], PropertyEvents(strings, rest, now));
    case Sub(_, _, _) =>
  }

  lemma NoneCloses()
    ensures Closes([]) == 0
  {
  }

  lemma ClosesOne(e: Event)
    ensures Closes([e]) == if e.Close? then 1 else 0
  {
    assert [e][..0] == [];
  }

  /** Every node of the subtree is closed once, and the node itself last: deletions are numbered in that order. */
  lemma {:induction false} ClosesCounted(strings: seq<Byte>, body: Body, node: seq<Frame>, counts: Counts)
    ensures Closes(ChildEvents(strings, body, node, counts)) == Count(body)
    decreases body, 0
  {
    hide Settled, Closes, SubEvents;
    NoneCloses();
    match body
    case End =>
    case Nop(rest) => ClosesCounted(strings, rest, node, counts);
    case Prop(_, _, _, rest) => ClosesCounted(strings, rest, node, counts);
    case Sub(name, b, rest) =>
      var child := [Frame(name, counts)] + node;
      var counts' := Settled(strings, b, child)[0].counts;
      SubCloses(strings, b, child);
      ClosesCounted(strings, rest, node, counts');
      ClosesAdd(SubEvents(strings, b, child), ChildEvents(strings, rest, node, counts'));
  }

  lemma {:induction false} SubCloses(strings: seq<Byte>, b: Body, child: seq<Frame>)
    requires child != []
    ensures var events := SubEvents(strings, b, child);
      events != [] && events[|events| - 1].Close? && Closes(events) == Count(b) + 1
    decreases b, 1
  {
    hide Settled, Closes, PropertyEvents, ChildEvents, Count;
    var settled := Settled(strings, b, child);
    var props, done, subs := PropertyEvents(strings, b, child), DoneEvent(settled),
                             ChildEvents(strings, b, settled, DefaultCounts);
    PropertiesCloseNothing(strings, b, child);
    ClosesCounted(strings, b, settled, DefaultCounts);
    ClosesOne(Done(settled));
    ClosesOne(Open(child));
    ClosesOne(Close(settled));
    ClosesAdd(props, done);
    ClosesAdd(props + done, subs);
    ClosesAdd([Open(child)], props + done + subs);
    ClosesAdd([Open(child)] + (props + done + subs), [Close(settled)]);
  }

  // ---- deletion ----

  function Nops(n: nat, rest: Body): Body {
    if n == 0 then rest else Nop(Nops(n - 1, rest))
  }

  /** The body after the k-th closed node, the (k+1)-th and so on were overwritten as `deletes` says. */
  function Blanked(body: Body, deletes: nat -> bool, k: nat): Body {
    match body
    case End => End
    case Nop(rest) => Nop(Blanked(rest, deletes, k))
    case Prop(off, len, value, rest) => Prop(off, len, value, Blanked(rest, deletes, k))
    case Sub(name, b, rest) =>
      var rest' := Blanked(rest, deletes, k + Count(b) + 1);
      if deletes(k + Count(b)) then Nops(|name| / 4 + |Cells(b)| + 3, rest')
      else Sub(name, Blanked(b, deletes, k), rest')
  }

  /** The body without the deleted nodes. */
  function Pruned(body: Body, deletes: nat -> bool, k: nat): Body {
    match body
    case End => End
    case Nop(rest) => Nop(Pruned(rest, deletes, k))
    case Prop(off, len, value, rest) => Prop(off, len, value, Pruned(rest, deletes, k))
    case Sub(name, b, rest) =>
      var rest' := Pruned(rest, deletes, k + Count(b) + 1);
      if deletes(k + Count(b)) then rest' else Sub(name, Pruned(b, deletes, k), rest')
  }

  lemma {:induction false} NopsAreNothing(strings: seq<Byte>, n: nat, rest: Body, node: seq<Frame>, counts: Counts)
    ensures Settled(strings, Nops(n, rest), node) == Settled(strings, rest, node)
    ensures PropertyEvents(strings, Nops(n, rest), node) == PropertyEvents(strings, rest, node)
    ensures ChildEvents(strings, Nops(n, rest), node, counts) == ChildEvents(strings, rest, node, counts)
    ensures NoProps(Nops(n, rest)) == NoProps(rest) && BodyOk(strings, Nops(n, rest)) == BodyOk(strings, rest)
  {
    if n > 0 { NopsAreNothing(strings, n - 1, rest, node, counts); }
  }

  lemma {:induction false} NopCells(n: nat, rest: Body)
    ensures Cells(Nops(n, rest)) == seq(n, _ => FDT_NOP) + Cells(rest)
  {
    if n > 0 {
      NopCells(n - 1, rest);
      assert seq(n, _ => FDT_NOP) == [FDT_NOP] + seq(n - 1, _ => FDT_NOP);
    }
  }

  /** Overwriting keeps the length of the block. */
  lemma {:induction false} BlankedLength(body: Body, deletes: nat -> bool, k: nat)
    ensures |Cells(Blanked(body, deletes, k))| == |Cells(body)|
  {
    hide Nops, SubCells, Count;
    match body
    case End =>
    case Nop(rest) => BlankedLength(rest, deletes, k);
    case Prop(_, _, _, rest) => BlankedLength(rest, deletes, k);
    case Sub(name, b, rest) =>
      BlankedLength(b, deletes, k);
      BlankedLength(rest, deletes, k + Count(b) + 1);
      NopCells(|name| / 4 + |Cells(b)| + 3, Blanked(rest, deletes, k + Count(b) + 1));
  }

  lemma {:induction false} PropsStay(strings: seq<Byte>, body: Body, deletes: nat -> bool, k: nat)
    requires BodyOk(strings, body)
    ensures BodyOk(strings, Blanked(body, deletes, k)) && BodyOk(strings, Pruned(body, deletes, k))
    ensures NoProps(body) ==> NoProps(Blanked(body, deletes, k)) && NoProps(Pruned(body, deletes, k))
  {
    hide Nops, Count, Cells, PropOk, NameOk, Settled, PropertyEvents, ChildEvents;
    match body
    case End =>
    case Nop(rest) => PropsStay(strings, rest, deletes, k);
    case Prop(_, _, _, rest) => PropsStay(strings, rest, deletes, k);
    case Sub(name, b, rest) =>
      PropsStay(strings, b, deletes, k);
      PropsStay(strings, rest, deletes, k + Count(b) + 1);
      NopsAreNothing(strings, |name| / 4 + |Cells(b)| + 3, Blanked(rest, deletes, k + Count(b) + 1), [], DefaultCounts);
  }

  lemma {:induction false} NoPropsNothing(strings: seq<Byte>, body: Body, node: seq<Frame>)
    requires NoProps(body)
    ensures Settled(strings, body, node) == node && PropertyEvents(strings, body, node) == []
  {
    match body
    case Nop(rest) => NoPropsNothing(strings, rest, node);
    case _ =>
  }

  /** Scanning the overwritten block gives the same callbacks as scanning the pruned tree. */
  lemma {:induction false} DeletionIsPruning(
      strings: seq<Byte>, body: Body, deletes: nat -> bool, k: nat, node: seq<Frame>, counts: Counts)
    requires BodyOk(strings, body)
    ensures Settled(strings, Blanked(body, deletes, k), node) == Settled(strings, Pruned(body, deletes, k), node)
    ensures PropertyEvents(strings, Blanked(body, deletes, k), node) ==
      PropertyEvents(strings, Pruned(body, deletes, k), node)
    ensures ChildEvents(strings, Blanked(body, deletes, k), node, counts) ==
            ChildEvents(strings, Pruned(body, deletes, k), node, counts)
    decreases body, 0
  {
    hide Nops, SubEvents, StringAt, Noted, BodyOk, Cells;
    BodyParts(strings, body);
    match body
    case End =>
    case Nop(rest) => DeletionIsPruning(strings, rest, deletes, k, node, counts);
    case Prop(off, _, value, rest) =>
      DeletionIsPruning(strings, rest, deletes, k, Noted(node, StringAt(strings, Number(off)), value), counts);
      DeletionIsPruning(strings, rest, deletes, k, node, counts);
    case Sub(name, b, rest) =>
      var k', n := k + Count(b) + 1, |name| / 4 + |Cells(b)| + 3;
      if deletes(k + Count(b)) {
        NopsAreNothing(strings, n, Blanked(rest, deletes, k'), node, counts);
        DeletionIsPruning(strings, rest, deletes, k', node, counts);
      } else {
        var child := [Frame(name, counts)] + node;
        SubtreePruned(strings, b, deletes, k, child);
        var after := Settled(strings, Pruned(b, deletes, k), child)[0].counts;
        DeletionIsPruning(strings, rest, deletes, k', node, after);
      }
  }

  lemma SubtreePruned(strings: seq<Byte>, b: Body, deletes: nat -> bool, k: nat, child: seq<Frame>)
    requires BodyOk(strings, b)
    ensures SubEvents(strings, Blanked(b, deletes, k), child) == SubEvents(strings, Pruned(b, deletes, k), child)
    ensures Settled(strings, Blanked(b, deletes, k), child) == Settled(strings, Pruned(b, deletes, k), child)
    decreases b, 1
  {
    DeletionIsPruning(strings, b, deletes, k, child, DefaultCounts);
    DeletionIsPruning(strings, b, deletes, k, Settled(strings, Pruned(b, deletes, k), child), DefaultCounts);
  }
}
