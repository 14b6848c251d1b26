/**
 The device-tree scanner (spike_interface/dts_parse.c): a recursive scan of the structure
 block that overwrites deleted subtrees in place.
 */
module Scanner {
  import opened DeviceTree

  /** The block holds these cells at a place, big-endian. */
  ghost predicate Holds(raw: seq<Word>, at: nat, cells: seq<Word>) {
    at + |cells| <= |raw| && forall i :: 0 <= i < |cells| ==> Bswap(raw[at + i]) == cells[i]
  }

  /** Nothing outside [lo, hi) differs. */
  ghost predicate OnlyWithin(raw: seq<Word>, raw': seq<Word>, lo: nat, hi: nat) {
    |raw'| == |raw| && forall j {:trigger raw'[j]} :: 0 <= j < |raw| && (j < lo || hi <= j) ==> raw'[j] == raw[j]
  }

  lemma HoldsSplit(raw: seq<Word>, at: nat, a: seq<Word>, b: seq<Word>)
    ensures Holds(raw, at, a + b) <==> Holds(raw, at, a) && Holds(raw, at + |a|, b)
  {
    hide Bswap;
    var c := a + b;
    if Holds(raw, at, c) {
      forall i | 0 <= i < |a| ensures Bswap(raw[at + i]) == a[i] { assert c[i] == a[i]; }
      forall i | 0 <= i < |b| ensures Bswap(raw[at + |a| + i]) == b[i] { assert c[|a| + i] == b[i]; }
    }
    if Holds(raw, at, a) && Holds(raw, at + |a|, b) {
      forall i | 0 <= i < |c| ensures Bswap(raw[at + i]) == c[i] {
        if i >= |a| { assert c[i] == b[i - |a|]; }
      }
    }
  }

  lemma HoldsStays(raw: seq<Word>, raw': seq<Word>, lo: nat, hi: nat, at: nat, cells: seq<Word>)
    requires OnlyWithin(raw, raw', lo, hi) && Holds(raw, at, cells) && (at + |cells| <= lo || hi <= at)
    ensures Holds(raw', at, cells)
  {
    hide Bswap;
    forall i | 0 <= i < |cells| ensures Bswap(raw'[at + i]) == cells[i] {
      assert raw'[at + i] == raw[at + i];
    }
  }

  lemma WithinThen(a: seq<Word>, b: seq<Word>, c: seq<Word>, lo: nat, mid: nat, top: nat, hi: nat)
    requires OnlyWithin(a, b, lo, hi) && OnlyWithin(b, c, mid, top) && lo <= mid && top <= hi
    ensures OnlyWithin(a, c, lo, hi)
  {
    forall j | 0 <= j < |a| && (j < lo || hi <= j) ensures c[j] == a[j] {
      assert b[j] == a[j];
    }
  }

  // ---- names ----

  /** Byte n of the string that starts at a word of the block. */
  function ByteAt(raw: seq<Word>, at: nat, n: nat): Byte
    requires at + n / 4 < |raw|
  {
    ByteOf(raw[at + n / 4], n % 4)
  }

  lemma {:induction false} PackedBytes(raw: seq<Word>, at: nat, name: seq<Byte>, n: nat)
    requires Holds(raw, at, Pack(name)) && n <= |name|
    ensures at + n / 4 < |raw| && ByteAt(raw, at, n) == if n < |name| then name[n] else 0
    decreases |name|
  {
    hide Bswap, Cell, ByteOf;
    var cells := Pack(name);
    var b := k => if 0 <= k < |name| then name[k] else 0;
    assert Bswap(raw[at]) == cells[0] == Cell(b(0), b(1), b(2), b(3));
    if n < 4 {
      BytesOfCell(b(0), b(1), b(2), b(3), raw[at]);
    } else {
      HoldsSplit(raw, at, [cells[0]], Pack(name[4..]));
      PackedBytes(raw, at + 1, name[4..], n - 4);
      assert n / 4 == 1 + (n - 4) / 4 && n % 4 == (n - 4) % 4;
    }
  }

  /** strlen, keeping the characters. */
  method ReadName(block: array<Word>, at: nat, ghost expected: seq<Byte>) returns (name: seq<Byte>)
    requires NameOk(expected) && Holds(block[..], at, Pack(expected))
    ensures name == expected
  {
    hide Holds, ByteOf, Pack;
    name := [];
    PackedBytes(block[..], at, expected, 0);
    while ByteAt(block[..], at, |name|) != 0
      invariant |name| <= |expected| && name == expected[..|name|]
      invariant at + |name| / 4 < block.Length
      invariant ByteAt(block[..], at, |name|) == if |name| < |expected| then expected[|name|] else 0
      decreases |expected| - |name|
    {
      PackedBytes(block[..], at, expected, |name| + 1);
      name := name + [ByteAt(block[..], at, |name|)];
    }
  }

  /** Overwrite words with no-ops. */
  method Blot(block: array<Word>, lo: nat, hi: nat)
    requires lo <= hi <= block.Length
    modifies block
    ensures OnlyWithin(old(block[..]), block[..], lo, hi)
    ensures Holds(block[..], lo, seq(hi - lo, _ => FDT_NOP))
  {
    hide Bswap;
    var lex := lo;
    while lex != hi
      invariant lo <= lex <= hi
      invariant forall j :: lo <= j < lex ==> Bswap(block[j]) == FDT_NOP
      invariant forall j :: 0 <= j < block.Length && (j < lo || hi <= j) ==> block[j] == old(block[j])
    {
      BswapTwice(FDT_NOP);
      block[lex] := Bswap(FDT_NOP);
      lex := lex + 1;
    }
  }

  // ---- the scan ----

  /** What is still to come when a level is scanned from `rest` on; `last` says that done was called. */
  function Remaining(strings: seq<Byte>, rest: Body, node: seq<Frame>, counts: Counts, last: bool): seq<Event> {
    if last then ChildEvents(strings, rest, node, counts) else TreeEvents(strings, rest, node, counts)
  }

  function DoneNow(node: seq<Frame>, last: bool): seq<Event> {
    if last then [] else DoneEvent(node)
  }

  lemma RemainingProp(strings: seq<Byte>, rest: Body, node: seq<Frame>, counts: Counts)
    requires rest.Prop?
    ensures var name := StringAt(strings, Number(rest.off));
      var now := Noted(node, name, rest.value);
      && Remaining(strings, rest, node, counts, false) ==
           [Property(now, name, rest.len, rest.value)] + Remaining(strings, rest.rest, now, counts, false)
      && Settled(strings, rest, node) == Settled(strings, rest.rest, now)
  {
    hide Noted, StringAt, ChildEvents;
    var name := StringAt(strings, Number(rest.off));
    var now := Noted(node, name, rest.value);
    var settled := Settled(strings, rest.rest, now);
    OneFirst(Property(now, name, rest.len, rest.value), PropertyEvents(strings, rest.rest, now), DoneEvent(settled),
             ChildEvents(strings, rest.rest, settled, counts));
    SkipProp(strings, rest, settled, counts);
  }

  lemma SkipProp(strings: seq<Byte>, rest: Body, node: seq<Frame>, counts: Counts)
    requires rest.Prop?
    ensures ChildEvents(strings, rest, node, counts) == ChildEvents(strings, rest.rest, node, counts)
  {
  }

  lemma OneFirst(e: Event, a: seq<Event>, b: seq<Event>, c: seq<Event>)
    ensures [e] + a + b + c == [e] + (a + b + c)
  {
  }

  lemma SubFirst(strings: seq<Byte>, rest: Body, node: seq<Frame>, counts: Counts)
    requires rest.Sub?
    ensures var child := [Frame(rest.name, counts)] + node;
      && TreeEvents(strings, rest, node, counts) == DoneEvent(node) + ChildEvents(strings, rest, node, counts)
      && ChildEvents(strings, rest, node, counts) ==
           SubEvents(strings, rest.body, child) +
           ChildEvents(strings, rest.rest, node, Settled(strings, rest.body, child)[0].counts)
      && Settled(strings, rest, node) == node
  {
    hide SubEvents;
  }

  lemma RemainingSub(strings: seq<Byte>, rest: Body, node: seq<Frame>, counts: Counts, last: bool)
    requires rest.Sub? && NoProps(rest.rest)
    ensures var child := [Frame(rest.name, counts)] + node;
      && Remaining(strings, rest, node, counts, last) ==
           DoneNow(node, last) + SubEvents(strings, rest.body, child) +
           Remaining(strings, rest.rest, node, Settled(strings, rest.body, child)[0].counts, true)
      && Settled(strings, rest.rest, node) == node == Settled(strings, rest, node)
  {
    hide SubEvents, ChildEvents, TreeEvents, Settled, PropertyEvents, DoneEvent;
    NoPropsNothing(strings, rest.rest, node);
    SubFirst(strings, rest, node, counts);
  }

  /** A word that ends a level: anything but a subnode, a property or a no-op. */
  predicate Ends(w: Word) {
    w != FDT_BEGIN_NODE && w != FDT_PROP && w != FDT_NOP
  }

  lemma TokenTells(raw: seq<Word>, lex: nat, rest: Body)
    requires Holds(raw, lex, Cells(rest)) && lex + |Cells(rest)| < |raw| && Ends(Bswap(raw[lex + |Cells(rest)|]))
    ensures var token := Bswap(raw[lex]);
      && (token == FDT_NOP <==> rest.Nop?) && (token == FDT_PROP <==> rest.Prop?)
      && (token == FDT_BEGIN_NODE <==> rest.Sub?)
  {
    hide Bswap, Pack;
    if rest.End? {
      assert raw[lex + |Cells(rest)|] == raw[lex];
    } else {
      assert Bswap(raw[lex + 0]) == Cells(rest)[0];
    }
  }

  function CellsAt(raw: seq<Word>, at: nat, n: nat): seq<Word>
    requires at + n <= |raw|
  {
    seq(n, i requires 0 <= i < n => Bswap(raw[at + i]))
  }

  /** A property as the block holds it. */
  lemma PropHeld(raw: seq<Word>, lex: nat, rest: Body)
    requires rest.Prop? && Holds(raw, lex, Cells(rest))
    ensures var n := |rest.value|;
      && Bswap(raw[lex + 1]) == rest.len && Bswap(raw[lex + 2]) == rest.off
      && CellsAt(raw, lex + 3, n) == rest.value
      && Holds(raw, lex, [FDT_PROP, rest.len, rest.off] + rest.value) && Holds(raw, lex + 3 + n, Cells(rest.rest))
  {
    hide Bswap;
    var header := [FDT_PROP, rest.len, rest.off];
    HoldsSplit(raw, lex, header + rest.value, Cells(rest.rest));
    HoldsSplit(raw, lex, header, rest.value);
    assert header[1] == rest.len && header[2] == rest.off;
  }

  /** A node as the block holds it. */
  lemma SubHeld(raw: seq<Word>, at: nat, name: seq<Byte>, inner: seq<Word>)
    ensures var n := |name| / 4;
      Holds(raw, at, SubCells(name, inner)) <==>
      && Holds(raw, at, [FDT_BEGIN_NODE]) && Holds(raw, at + 1, Pack(name)) && Holds(raw, at + 2 + n, inner)
      && Holds(raw, at + 2 + n + |inner|, [FDT_END_NODE])
  {
    hide Holds, Pack;
    var a, b := [FDT_BEGIN_NODE], Pack(name);
    HoldsSplit(raw, at, a + b + inner, [FDT_END_NODE]);
    HoldsSplit(raw, at, a + b, inner);
    HoldsSplit(raw, at, a, b);
  }

  /** What is left of a node in the block once it is closed. */
  function Struck(name: seq<Byte>, b: Body, deletes: nat -> bool, k: nat): (cells: seq<Word>)
    ensures |cells| == |name| / 4 + |Cells(b)| + 3
  {
    BlankedLength(b, deletes, k);
    if deletes(k + Count(b)) then seq(|name| / 4 + |Cells(b)| + 3, _ => FDT_NOP)
    else SubCells(name, Cells(Blanked(b, deletes, k)))
  }

  lemma StruckCells(rest: Body, deletes: nat -> bool, k: nat)
    requires rest.Sub?
    ensures Cells(Blanked(rest, deletes, k)) ==
      Struck(rest.name, rest.body, deletes, k) + Cells(Blanked(rest.rest, deletes, k + Count(rest.body) + 1))
  {
    NopCells(|rest.name| / 4 + |Cells(rest.body)| + 3, Blanked(rest.rest, deletes, k + Count(rest.body) + 1));
  }

  /** One subnode: open, the levels below, close, and deletion if the callback asks for it. */
  method ScanSub(block: array<Word>, strings: seq<Byte>, at: nat, node: seq<Frame>, counts: Counts,
                 deletes: nat -> bool,
                 k: nat, ghost name: seq<Byte>, ghost b: Body)
      returns (next: nat, events: seq<Event>, counts': Counts, k': nat)
    requires NameOk(name) && BodyOk(strings, b) && Holds(block[..], at, SubCells(name, Cells(b)))
    modifies block
    ensures next == at + |name| / 4 + |Cells(b)| + 3 <= block.Length
    ensures events == SubEvents(strings, b, [Frame(name, counts)] + node)
    ensures counts' == Settled(strings, b, [Frame(name, counts)] + node)[0].counts && k' == k + Count(b) + 1
    ensures OnlyWithin(old(block[..]), block[..], at, next) && Holds(block[..], at, Struck(name, b, deletes, k))
    decreases b, 1
  {
    hide Bswap, Cells, Pack, Holds, SubCells, OnlyWithin, Settled, Count, BodyOk, Blanked;
    SubHeld(block[..], at, name, Cells(b));
    var found := ReadName(block, at + 1, name);
    var child := [Frame(found, counts)] + node;
    var inner := at + 2 + |found| / 4;
    EndHeld(block[..], inner + |Cells(b)|);
    ghost var before := block[..];
    var below, own;
    next, below, own, k' := ScanLevel(block, strings, inner, child, deletes, k, b);
    BlankedLength(b, deletes, k);
    AroundStays(before, block[..], at, Pack(name), inner, inner + |Cells(b)|);
    SubHeld(block[..], at, name, Cells(Blanked(b, deletes, k)));
    events := [Open(child)] + below + [Close(own)];
    counts' := own[0].counts;
    if deletes(k') {
      ghost var mid := block[..];
      Blot(block, at, next);
      Widen(before, mid, at, inner, inner + |Cells(b)|, next);
      WithinThen(before, mid, block[..], at, at, next, next);
    } else {
      Widen(before, block[..], at, inner, inner + |Cells(b)|, next);
    }
    k' := k' + 1;
  }

  lemma EndHeld(raw: seq<Word>, at: nat)
    requires Holds(raw, at, [FDT_END_NODE])
    ensures at < |raw| && Bswap(raw[at]) == FDT_END_NODE && Ends(Bswap(raw[at]))
  {
    hide Bswap;
    assert Bswap(raw[at + 0]) == [FDT_END_NODE][0];
  }

  lemma AroundStays(raw: seq<Word>, raw': seq<Word>, at: nat, packed: seq<Word>, lo: nat, hi: nat)
    requires Holds(raw, at, [FDT_BEGIN_NODE]) && Holds(raw, at + 1, packed) && Holds(raw, hi, [FDT_END_NODE])
    requires OnlyWithin(raw, raw', lo, hi) && at + 1 + |packed| == lo <= hi
    ensures Holds(raw', at, [FDT_BEGIN_NODE]) && Holds(raw', at + 1, packed) && Holds(raw', hi, [FDT_END_NODE])
  {
    hide Holds, OnlyWithin;
    HoldsStays(raw, raw', lo, hi, at, [FDT_BEGIN_NODE]);
    HoldsStays(raw, raw', lo, hi, at + 1, packed);
    HoldsStays(raw, raw', lo, hi, hi, [FDT_END_NODE]);
  }

  lemma Widen(a: seq<Word>, b: seq<Word>, lo: nat, mid: nat, top: nat, hi: nat)
    requires OnlyWithin(a, b, mid, top) && lo <= mid && top <= hi
    ensures OnlyWithin(a, b, lo, hi)
  {
  }

  /** How far a level is: what is done, and what is still as it was. */
  ghost predicate Progress(raw: seq<Word>, start: nat, lex: nat, done: seq<Word>, rest: Body, body: Body,
                           deletes: nat -> bool, k0: nat, k: nat)
  {
    && lex == start + |done| && lex + |Cells(rest)| == start + |Cells(body)| < |raw|
    && Holds(raw, start, done) && Holds(raw, lex, Cells(rest))
    && done + Cells(Blanked(rest, deletes, k)) == Cells(Blanked(body, deletes, k0))
    && Ends(Bswap(raw[start + |Cells(body)|])) && k + Count(rest) == k0 + Count(body)
  }

  /** The next piece of a level is done. */
  lemma ProgressStep(raw: seq<Word>, raw': seq<Word>, start: nat, lex: nat, done: seq<Word>, rest: Body, body: Body,
                     deletes: nat -> bool, k0: nat, k: nat, piece: seq<Word>, piece': seq<Word>, rest': Body, k': nat)
    requires Progress(raw, start, lex, done, rest, body, deletes, k0, k) && |piece| == |piece'|
    requires Cells(rest) == piece + Cells(rest')
    requires Cells(Blanked(rest, deletes, k)) == piece' + Cells(Blanked(rest', deletes, k'))
    requires k' + Count(rest') == k + Count(rest)
    requires OnlyWithin(raw, raw', lex, lex + |piece|) && Holds(raw', lex, piece')
    ensures Progress(raw', start, lex + |piece|, done + piece', rest', body, deletes, k0, k')
  {
    hide Holds, OnlyWithin, Cells, Blanked, Count, Bswap, Ends;
    HoldsSplit(raw, lex, piece, Cells(rest'));
    HoldsStays(raw, raw', lex, lex + |piece|, start, done);
    HoldsStays(raw, raw', lex, lex + |piece|, lex + |piece|, Cells(rest'));
    HoldsSplit(raw', start, done, piece');
    SameWord(raw, raw', lex, lex + |piece|, start + |Cells(body)|);
    assert done + piece' + Cells(Blanked(rest', deletes, k')) == done + (piece' + Cells(Blanked(rest', deletes, k')));
  }

  lemma SameWord(raw: seq<Word>, raw': seq<Word>, lo: nat, hi: nat, j: nat)
    requires OnlyWithin(raw, raw', lo, hi) && hi <= j < |raw|
    ensures |raw'| == |raw| && raw'[j] == raw[j]
  {
  }

  /** A property: it may set the cell counts of the node, and is passed on. */
  method StepProp(block: array<Word>, strings: seq<Byte>, lex: nat, own: seq<Frame>, events: seq<Event>, ghost l: Level,
                  ghost a: At)
      returns (lex': nat, own': seq<Frame>, events': seq<Event>)
    requires Going(l, block[..], a) && a.rest.Prop? && strings == l.strings && lex == a.lex && own == a.own
    requires events == a.events
    ensures Going(l, block[..], a.(lex := lex', done := a.done + ([FDT_PROP, a.rest.len, a.rest.off] + a.rest.value),
      rest := a.rest.rest, own := own', events := events'))
  {
    hide Going, StringAt, Noted, Bswap, CellsAt, PropOk, Number, WholeCells;
    var raw := block[..];
    GoProp(l, raw, a);
    assert !a.last;
    var name, len := StringAt(strings, Number(Bswap(raw[lex + 2]))), Bswap(raw[lex + 1]);
    var value := CellsAt(raw, lex + 3, WholeCells(len));
    own' := Noted(own, name, value);
    events' := events + [Property(own', name, len, value)];
    lex' := lex + 3 + WholeCells(len);
  }

  /** A subnode: done, if it was not called yet, and the subnode itself. */
  method StepSub(block: array<Word>, strings: seq<Byte>, lex: nat, own: seq<Frame>, counts: Counts, last: bool,
                 deletes: nat -> bool, k: nat, events: seq<Event>, ghost l: Level, ghost a: At)
      returns (lex': nat, events': seq<Event>, counts': Counts, k': nat)
    requires Going(l, block[..], a) && a.rest.Sub? && strings == l.strings && deletes == l.deletes
    requires lex == a.lex && own == a.own && counts == a.counts && last == a.last && k == a.k && events == a.events
    modifies block
    ensures Going(l, block[..],
                  At(lex', a.done + Struck(a.rest.name, a.rest.body, deletes, k), a.rest.rest, k', own, counts', true,
                     events'))
    decreases a.rest.body, 2
  {
    hide Going, Holds, SubCells, Struck, BodyOk, NameOk, OnlyWithin, Settled, Count, SubEvents, Cells;
    SubSits(l, block[..], a);
    ghost var raw := block[..];
    var more;
    lex', more, counts', k' := ScanSub(block, strings, lex, own, counts, deletes, k, a.rest.name, a.rest.body);
    GoSub(l, raw, block[..], a);
    events' := events + DoneNow(own, last) + more;
  }

  /** One level, from `start` to the word that ends it. */
  method ScanLevel(block: array<Word>, strings: seq<Byte>, start: nat, node: seq<Frame>, deletes: nat -> bool, k0: nat,
                   ghost body: Body)
      returns (next: nat, events: seq<Event>, own: seq<Frame>, k: nat)
    requires BodyOk(strings, body) && Holds(block[..], start, Cells(body))
    requires start + |Cells(body)| < block.Length && Ends(Bswap(block[start + |Cells(body)|]))
    modifies block
    ensures var end := start + |Cells(body)|;
      && next == (if Bswap(old(block[end])) == FDT_END_NODE then end + 1 else end)
      && OnlyWithin(old(block[..]), block[..], start, end)
    ensures events == TreeEvents(strings, body, node, DefaultCounts) && own == Settled(strings, body, node)
    ensures k == k0 + Count(body) && Holds(block[..], start, Cells(Blanked(body, deletes, k0)))
    decreases body, 0
  {
    hide Bswap, Cells, Pack, Holds, SubCells, OnlyWithin, Settled, Count, BodyOk, Blanked, TreeEvents, SubEvents,
      StringAt, Noted, Struck, Ends, Going, NameOk, PropOk, NoProps, CellsAt, DoneNow;
    var lex: nat, last, counts := start, false, DefaultCounts;
    events, own, k := [], node, k0;
    ghost var level := Level(strings, start, node, body, deletes, k0, block[..]);
    ghost var rest, done: seq<Word> := body, [];
    Begin(level);
    while true
      invariant Going(level, block[..], At(lex, done, rest, k, own, counts, last, events))
      decreases rest
    {
      ghost var here := At(lex, done, rest, k, own, counts, last, events);
      var raw := block[..];
      NextToken(level, raw, here);
      var token := Bswap(raw[lex]);
      if token == FDT_NOP {
        GoNop(level, raw, here);
        lex, done, rest := lex + 1, done + [FDT_NOP], rest.rest;
      } else if token == FDT_PROP {
        lex, own, events := StepProp(block, strings, lex, own, events, level, here);
        done, rest := done + ([FDT_PROP, rest.len, rest.off] + rest.value), rest.rest;
      } else if token == FDT_BEGIN_NODE {
        SubSits(level, raw, here);
        lex, events, counts, k := StepSub(block, strings, lex, own, counts, last, deletes, k, events, level, here);
        done, rest, last := done + Struck(rest.name, rest.body, deletes, here.k), rest.rest, true;
      } else {
        GoEnd(level, raw, here);
        events := events + DoneNow(own, last);
        next := if token == FDT_END_NODE then lex + 1 else lex;
        return;
      }
    }
  }

  /** What a level is called with. */
  datatype Level = Level(
    strings: seq<Byte>, start: nat, node: seq<Frame>, body: Body, deletes: nat -> bool, k0: nat, first: seq<Word>)

  /** Where the scan of a level is. */
  datatype At = At(
    lex: nat, done: seq<Word>, rest: Body, k: nat, own: seq<Frame>, counts: Counts, last: bool, events: seq<Event>)

  ghost predicate Going(l: Level, raw: seq<Word>, a: At) {
    && Progress(raw, l.start, a.lex, a.done, a.rest, l.body, l.deletes, l.k0, a.k)
    && BodyOk(l.strings, a.rest) && (a.last ==> NoProps(a.rest))
    && a.events + Remaining(l.strings, a.rest, a.own, a.counts, a.last) ==
         TreeEvents(l.strings, l.body, l.node, DefaultCounts)
    && Settled(l.strings, a.rest, a.own) == Settled(l.strings, l.body, l.node)
    && OnlyWithin(l.first, raw, l.start, l.start + |Cells(l.body)|)
  }

  lemma Begin(l: Level)
    requires BodyOk(l.strings, l.body) && Holds(l.first, l.start, Cells(l.body))
    requires l.start + |Cells(l.body)| < |l.first|
    requires Ends(Bswap(l.first[l.start + |Cells(l.body)|]))
    ensures Going(l, l.first, At(l.start, [], l.body, l.k0, l.node, DefaultCounts, false, []))
  {
    hide Cells, Blanked, Bswap, Count, Settled, BodyOk, TreeEvents, Holds;
    var cells, events := Cells(Blanked(l.body, l.deletes, l.k0)), TreeEvents(l.strings, l.body, l.node, DefaultCounts);
    assert [] + cells == cells && [] + events == events;
    HoldsSplit(l.first, l.start, [], Cells(l.body));
    assert [] + Cells(l.body) == Cells(l.body);
  }

  lemma NextToken(l: Level, raw: seq<Word>, a: At)
    requires Going(l, raw, a)
    ensures a.lex < |raw| && var token := Bswap(raw[a.lex]);
      && (token == FDT_NOP <==> a.rest.Nop?) && (token == FDT_PROP <==> a.rest.Prop?)
      && (token == FDT_BEGIN_NODE <==> a.rest.Sub?)
  {
    hide Bswap, Holds, Cells, Ends, Blanked, Count, Settled, BodyOk, TreeEvents, OnlyWithin, Remaining;
    TokenTells(raw, a.lex, a.rest);
  }

  lemma GoNop(l: Level, raw: seq<Word>, a: At)
    requires Going(l, raw, a) && a.rest.Nop?
    ensures Going(l, raw, a.(lex := a.lex + 1, done := a.done + [FDT_NOP], rest := a.rest.rest))
  {
    hide Progress, BodyOk, Settled, TreeEvents, OnlyWithin, Cells, Remaining, NoProps;
    BodyUnfolds(l.strings, a.rest);
    NopStep(raw, l.start, a.lex, a.done, a.rest, l.body, l.deletes, l.k0, a.k);
    NopRemains(l.strings, a.rest, a.own, a.counts, a.last);
  }

  lemma GoProp(l: Level, raw: seq<Word>, a: At)
    requires Going(l, raw, a) && a.rest.Prop?
    ensures var rest := a.rest;
      var name := StringAt(l.strings, Number(rest.off));
      var own := Noted(a.own, name, rest.value);
      && !a.last && Number(rest.len) < 0x7FFF_FFFC && |rest.value| == WholeCells(rest.len)
      && a.lex + 3 + |rest.value| < |raw| && Bswap(raw[a.lex + 1]) == rest.len && Bswap(raw[a.lex + 2]) == rest.off
      && CellsAt(raw, a.lex + 3, |rest.value|) == rest.value
      && Going(l, raw,
               a.(lex := a.lex + 3 + |rest.value|, done := a.done + ([FDT_PROP, rest.len, rest.off] + rest.value),
           rest := rest.rest, own := own, events := a.events + [Property(own, name, rest.len, rest.value)]))
  {
    hide BodyOk, Settled, TreeEvents, OnlyWithin, Remaining, NoProps, Bswap, Holds, Blanked, StringAt, Noted, Count,
      Ends, Number, WholeCells;
    BodyUnfolds(l.strings, a.rest);
    PropHeld(raw, a.lex, a.rest);
    PropStep(raw, l.start, a.lex, a.done, a.rest, l.body, l.deletes, l.k0, a.k);
    RemainingProp(l.strings, a.rest, a.own, a.counts);
    var name := StringAt(l.strings, Number(a.rest.off));
    var own := Noted(a.own, name, a.rest.value);
    EventsNext(a.events, [Property(own, name, a.rest.len, a.rest.value)],
               Remaining(l.strings, a.rest.rest, own, a.counts, false));
  }

  lemma SubSits(l: Level, raw: seq<Word>, a: At)
    requires a.rest.Sub? && Going(l, raw, a)
    ensures Holds(raw, a.lex, SubCells(a.rest.name, Cells(a.rest.body)))
    ensures NameOk(a.rest.name) && BodyOk(l.strings, a.rest.body)
    ensures a.lex + |a.rest.name| / 4 + |Cells(a.rest.body)| + 3 <= l.start + |Cells(l.body)|
  {
    hide SubCells, Holds, Blanked, Bswap, BodyOk, TreeEvents, Remaining, Settled;
    BodyUnfolds(l.strings, a.rest);
    HoldsSplit(raw, a.lex, SubCells(a.rest.name, Cells(a.rest.body)), Cells(a.rest.rest));
  }

  lemma GoSub(l: Level, raw: seq<Word>, raw': seq<Word>, a: At)
    requires a.rest.Sub? && Going(l, raw, a)
    requires var hi := a.lex + |a.rest.name| / 4 + |Cells(a.rest.body)| + 3;
      OnlyWithin(raw, raw', a.lex, hi) && Holds(raw', a.lex, Struck(a.rest.name, a.rest.body, l.deletes, a.k))
    ensures var rest, child := a.rest, [Frame(a.rest.name, a.counts)] + a.own;
      Going(l, raw', At(a.lex + |rest.name| / 4 + |Cells(rest.body)| + 3,
        a.done + Struck(rest.name, rest.body, l.deletes, a.k), rest.rest, a.k + Count(rest.body) + 1, a.own,
        Settled(l.strings, rest.body, child)[0].counts, true,
        a.events + DoneNow(a.own, a.last) + SubEvents(l.strings, rest.body, child)))
  {
    hide Progress, BodyOk, Settled, TreeEvents, OnlyWithin, Remaining, NoProps, Bswap, Holds, Blanked, Count, Struck,
      SubEvents, DoneNow, Cells;
    SubSits(l, raw, a);
    BodyUnfolds(l.strings, a.rest);
    SubStep(raw, raw', l.start, a.lex, a.done, a.rest, l.body, l.deletes, l.k0, a.k);
    RemainingSub(l.strings, a.rest, a.own, a.counts, a.last);
    StartBelow(raw, l.start, a.lex, a.done, a.rest, l.body, l.deletes, l.k0, a.k);
    WithinThen(l.first, raw, raw', l.start, a.lex, a.lex + |a.rest.name| / 4 + |Cells(a.rest.body)| + 3,
               l.start + |Cells(l.body)|);
    var child := [Frame(a.rest.name, a.counts)] + a.own;
    var told, more := DoneNow(a.own, a.last), SubEvents(l.strings, a.rest.body, child);
    var after := Remaining(l.strings, a.rest.rest, a.own, Settled(l.strings, a.rest.body, child)[0].counts, true);
    EventsNext(a.events, told + more, after);
    EventsNext(a.events, told, more);
  }

  lemma StartBelow(raw: seq<Word>, start: nat, lex: nat, done: seq<Word>, rest: Body, body: Body,
                   deletes: nat -> bool, k0: nat, k: nat)
    requires Progress(raw, start, lex, done, rest, body, deletes, k0, k)
    ensures start <= lex
  {
    hide Holds, Cells, Blanked, Count, Bswap;
  }

  lemma GoEnd(l: Level, raw: seq<Word>, a: At)
    requires a.rest.End? && Going(l, raw, a)
    ensures a.lex == l.start + |Cells(l.body)| < |l.first| && |l.first| == |raw| && l.first[a.lex] == raw[a.lex]
    ensures a.events + DoneNow(a.own, a.last) == TreeEvents(l.strings, l.body, l.node, DefaultCounts)
    ensures a.own == Settled(l.strings, l.body, l.node) && a.k == l.k0 + Count(l.body)
    ensures Holds(raw, l.start, Cells(Blanked(l.body, l.deletes, l.k0)))
    ensures OnlyWithin(l.first, raw, l.start, l.start + |Cells(l.body)|)
  {
    hide BodyOk, Settled, TreeEvents, Remaining, NoProps, Bswap, Holds;
    EndRemains(l.strings, a.rest, a.own, a.counts, a.last);
    EndStep(raw, l.start, a.lex, a.done, a.rest, l.body, l.deletes, l.k0, a.k);
    SameWord(l.first, raw, l.start, a.lex, a.lex);
  }

  lemma BodyUnfolds(strings: seq<Byte>, body: Body)
    requires BodyOk(strings, body)
    ensures body.Nop? ==> BodyOk(strings, body.rest) && (NoProps(body) ==> NoProps(body.rest))
    ensures body.Prop? ==>
      BodyOk(strings, body.rest) && !NoProps(body) && PropOk(strings, body.off, body.len, body.value)
    ensures body.Sub? ==>
      BodyOk(strings, body.body) && BodyOk(strings, body.rest) && NameOk(body.name) && NoProps(body.rest)
  {
  }

  lemma NopRemains(strings: seq<Byte>, rest: Body, node: seq<Frame>, counts: Counts, last: bool)
    requires rest.Nop?
    ensures Remaining(strings, rest, node, counts, last) == Remaining(strings, rest.rest, node, counts, last)
    ensures Settled(strings, rest, node) == Settled(strings, rest.rest, node)
  {
    var settled := Settled(strings, rest, node);
    assert ChildEvents(strings, rest, settled, counts) == ChildEvents(strings, rest.rest, settled, counts);
  }

  lemma EndRemains(strings: seq<Byte>, rest: Body, node: seq<Frame>, counts: Counts, last: bool)
    requires rest.End?
    ensures Remaining(strings, rest, node, counts, last) == DoneNow(node, last) && Settled(strings, rest, node) == node
  {
    assert PropertyEvents(strings, rest, node) == [] && ChildEvents(strings, rest, node, counts) == [];
    assert TreeEvents(strings, rest, node, counts) == DoneEvent(node);
  }

  lemma EventsNext(a: seq<Event>, b: seq<Event>, c: seq<Event>)
    ensures a + (b + c) == (a + b) + c
  {
  }

  lemma NopStep(raw: seq<Word>, start: nat, lex: nat, done: seq<Word>, rest: Body, body: Body,
                deletes: nat -> bool, k0: nat, k: nat)
    requires rest.Nop? && Progress(raw, start, lex, done, rest, body, deletes, k0, k)
    ensures Progress(raw, start, lex + 1, done + [FDT_NOP], rest.rest, body, deletes, k0, k)
  {
    hide Progress, Holds;
    SameBlock(raw, start, lex, done, rest, body, deletes, k0, k, [FDT_NOP], rest.rest);
    ProgressStep(raw, raw, start, lex, done, rest, body, deletes, k0, k, [FDT_NOP], [FDT_NOP], rest.rest, k);
  }

  lemma PropStep(raw: seq<Word>, start: nat, lex: nat, done: seq<Word>, rest: Body, body: Body,
                 deletes: nat -> bool, k0: nat, k: nat)
    requires rest.Prop? && Progress(raw, start, lex, done, rest, body, deletes, k0, k)
    ensures Progress(raw, start, lex + 3 + |rest.value|, done + ([FDT_PROP, rest.len, rest.off] + rest.value),
                     rest.rest, body,
                     deletes, k0, k)
  {
    hide Progress, Holds;
    var piece := [FDT_PROP, rest.len, rest.off] + rest.value;
    SameBlock(raw, start, lex, done, rest, body, deletes, k0, k, piece, rest.rest);
    ProgressStep(raw, raw, start, lex, done, rest, body, deletes, k0, k, piece, piece, rest.rest, k);
  }

  lemma SameBlock(raw: seq<Word>, start: nat, lex: nat, done: seq<Word>, rest: Body, body: Body,
                  deletes: nat -> bool, k0: nat, k: nat, piece: seq<Word>, rest': Body)
    requires Progress(raw, start, lex, done, rest, body, deletes, k0, k) && Cells(rest) == piece + Cells(rest')
    ensures OnlyWithin(raw, raw, lex, lex + |piece|) && Holds(raw, lex, piece)
  {
    hide Holds, Cells, Blanked, Count, Bswap;
    HoldsSplit(raw, lex, piece, Cells(rest'));
  }

  lemma SubStep(raw: seq<Word>, raw': seq<Word>, start: nat, lex: nat, done: seq<Word>, rest: Body, body: Body,
                deletes: nat -> bool, k0: nat, k: nat)
    requires rest.Sub? && Progress(raw, start, lex, done, rest, body, deletes, k0, k)
    requires var hi := lex + |rest.name| / 4 + |Cells(rest.body)| + 3;
      OnlyWithin(raw, raw', lex, hi) && Holds(raw', lex, Struck(rest.name, rest.body, deletes, k))
    ensures Progress(raw', start, lex + |rest.name| / 4 + |Cells(rest.body)| + 3,
                     done + Struck(rest.name, rest.body, deletes, k), rest.rest, body, deletes, k0,
                     k + Count(rest.body) + 1)
  {
    hide Progress, Holds, SubCells, OnlyWithin, Struck, Blanked;
    StruckCells(rest, deletes, k);
    ProgressStep(raw, raw', start, lex, done, rest, body, deletes, k0, k, SubCells(rest.name, Cells(rest.body)),
                 Struck(rest.name, rest.body, deletes, k), rest.rest, k + Count(rest.body) + 1);
  }

  lemma EndStep(raw: seq<Word>, start: nat, lex: nat, done: seq<Word>, rest: Body, body: Body,
                deletes: nat -> bool, k0: nat, k: nat)
    requires rest.End? && Progress(raw, start, lex, done, rest, body, deletes, k0, k)
    ensures lex == start + |Cells(body)| && Holds(raw, start, Cells(Blanked(body, deletes, k0)))
    ensures k == k0 + Count(body)
  {
    hide Holds;
    assert done + [] == done;
  }

  // ---- whole blocks ----

  /** A structure block: the cells of a tree and the end token. */
  ghost predicate IsBlock(raw: seq<Word>, at: nat, body: Body) {
    Holds(raw, at, Cells(body) + [9])
  }

  lemma BlockEnds(raw: seq<Word>, at: nat, body: Body)
    requires IsBlock(raw, at, body)
    ensures Holds(raw, at, Cells(body)) && at + |Cells(body)| < |raw| && Bswap(raw[at + |Cells(body)|]) == FDT_END
  {
    hide Bswap, Cells;
    HoldsSplit(raw, at, Cells(body), [FDT_END]);
    assert Bswap(raw[at + |Cells(body)| + 0]) == [FDT_END][0];
  }

  /**
   fdt_scan on the block of a well-formed tree: it makes the callbacks of the tree, stops at
   the end token, and leaves the block of the tree with the deleted nodes overwritten.
   */
  method Scan(block: array<Word>, strings: seq<Byte>, at: nat, deletes: nat -> bool, ghost body: Body)
      returns (next: nat, events: seq<Event>)
    requires BodyOk(strings, body) && IsBlock(block[..], at, body)
    modifies block
    ensures next == at + |Cells(body)| && events == TreeEvents(strings, body, [], DefaultCounts)
    ensures OnlyWithin(old(block[..]), block[..], at, next) && IsBlock(block[..], at, Blanked(body, deletes, 0))
  {
    hide Bswap, Cells, Holds, OnlyWithin, TreeEvents, BodyOk, Blanked, IsBlock;
    ghost var first := block[..];
    BlockEnds(first, at, body);
    var own, k;
    next, events, own, k := ScanLevel(block, strings, at, [], deletes, 0, body);
    BlankedLength(body, deletes, 0);
    SameWord(first, block[..], at, next, next);
    StillBlock(block[..], at, Blanked(body, deletes, 0));
  }

  lemma StillBlock(raw: seq<Word>, at: nat, body: Body)
    requires Holds(raw, at, Cells(body)) && at + |Cells(body)| < |raw| && Bswap(raw[at + |Cells(body)|]) == FDT_END
    ensures IsBlock(raw, at, body)
  {
    hide Bswap, Cells;
    HoldsSplit(raw, at, Cells(body), [FDT_END]);
  }

  const FDT_MAGIC: Word := 0xd00d_feed
  const FDT_VERSION: Word := 17

  /** The header of a tree the scanner understands. */
  predicate Understood(raw: seq<Word>) {
    |raw| >= 10 && Bswap(raw[0]) == 0xd00d_feed && Bswap(raw[6]) <= 17
  }

  /** The bytes from an offset on. */
  function BytesFrom(raw: seq<Word>, off: nat): seq<Byte> {
    if off >= 4 * |raw| then []
    else seq(4 * |raw| - off, i requires 0 <= i < 4 * |raw| - off => ByteAt(raw, 0, off + i))
  }

  /** Where the header says the structure block starts, in words, and what the strings block is. */
  function StructStart(raw: seq<Word>): nat
    requires |raw| >= 10
  {
    Number(Bswap(raw[2])) / 4
  }

  function StringsOf(raw: seq<Word>): seq<Byte>
    requires |raw| >= 10
  {
    BytesFrom(raw, Number(Bswap(raw[3])))
  }

  /** Behind an understood header lies the layout of `body`, in whole words from the start of the block. */
  ghost predicate Describes(raw: seq<Word>, body: Body)
    requires |raw| >= 10
  {
    Understood(raw) ==>
      && Number(Bswap(raw[2])) % 4 == 0
      && BodyOk(BytesFrom(raw, Number(Bswap(raw[3]))), body) && IsBlock(raw, Number(Bswap(raw[2])) / 4, body)
  }

  /** fdt_scan: a tree with another magic number or a newer version is left alone. */
  method FdtScan(block: array<Word>, deletes: nat -> bool, ghost body: Body) returns (events: seq<Event>)
    requires block.Length >= 10 && Describes(block[..], body)
    modifies block
    ensures !old(Understood(block[..])) ==> events == [] && block[..] == old(block[..])
    ensures old(Understood(block[..])) ==>
      var strings, at := old(BytesFrom(block[..], Number(Bswap(block[3])))), old(Number(Bswap(block[2])) / 4);
      && events == TreeEvents(strings, body, [], DefaultCounts)
      && IsBlock(block[..], at, Blanked(body, deletes, 0))
      && OnlyWithin(old(block[..]), block[..], at, at + |Cells(body)|)
  {
    hide IsBlock, OnlyWithin, TreeEvents, BodyOk, Blanked, Bswap, Number, BytesFrom, Cells;
    var raw := block[..];
    if Bswap(raw[0]) != FDT_MAGIC || Bswap(raw[6]) > FDT_VERSION { return []; }
    var next;
    next, events := Scan(block, StringsOf(raw), StructStart(raw), deletes, body);
  }

  /** A second scan, after deletions, sees exactly the pruned tree. */
  method Rescan(block: array<Word>, strings: seq<Byte>, at: nat, deletes: nat -> bool, ghost body: Body)
      returns (events: seq<Event>)
    requires BodyOk(strings, body) && IsBlock(block[..], at, body)
    modifies block
    ensures events == TreeEvents(strings, Pruned(body, deletes, 0), [], DefaultCounts)
  {
    hide IsBlock, OnlyWithin, TreeEvents, BodyOk, Blanked, Pruned;
    var next;
    next, events := Scan(block, strings, at, deletes, body);
    PropsStay(strings, body, deletes, 0);
    next, events := Scan(block, strings, at, _ => false, Blanked(body, deletes, 0));
    PrunedTree(strings, body, deletes);
  }

  lemma PrunedTree(strings: seq<Byte>, body: Body, deletes: nat -> bool)
    requires BodyOk(strings, body)
    ensures TreeEvents(strings, Blanked(body, deletes, 0), [], DefaultCounts) ==
            TreeEvents(strings, Pruned(body, deletes, 0), [], DefaultCounts)
  {
    hide BodyOk, Blanked, Pruned, Settled, PropertyEvents, ChildEvents;
    DeletionIsPruning(strings, body, deletes, 0, [], DefaultCounts);
  }
}
