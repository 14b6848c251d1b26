/**
 The callbacks of a scan as a narration of the tree (spike_interface/dts_parse.c,
 dts_parse.h): a listener that knows only the callbacks can rebuild the tree from them.
 */
module Narration {
  import opened DeviceTree

  /** A property as the callbacks give it. */
  datatype Item = Item(name: seq<Byte>, len: Word, value: seq<Word>)

  /** A device tree without its layout: padding and offsets are gone. */
  datatype Node = Node(name: seq<Byte>, items: seq<Item>, subs: seq<Node>)

  /** The properties of a body, in order. */
  function Items(strings: seq<Byte>, body: Body): seq<Item> {
    match body
    case End => []
    case Nop(rest) => Items(strings, rest)
    case Prop(off, len, value, rest) => [Item(StringAt(strings, Number(off)), len, value)] + Items(strings, rest)
    case Sub(_, _, rest) => Items(strings, rest)
  }

  /** The subnodes of a body, in order. */
  function Subnodes(strings: seq<Byte>, body: Body): seq<Node> {
    match body
    case End => []
    case Nop(rest) => Subnodes(strings, rest)
    case Prop(_, _, _, rest) => Subnodes(strings, rest)
    case Sub(name, b, rest) => [Node(name, Items(strings, b), Subnodes(strings, b))] + Subnodes(strings, rest)
  }

  // ---- the listener ----

  /** A node that is open: what was heard of it, and whether it is done with its properties. */
  datatype Level = Level(node: Node, done: bool)

  /** The open nodes, innermost first, or a breach of the protocol. */
  datatype Heard = Heard(levels: seq<Level>) | Breach

  function NamesOf(node: seq<Frame>): seq<seq<Byte>> {
    seq(|node|, i requires 0 <= i < |node| => node[i].name)
  }

  function OpenNames(levels: seq<Level>): seq<seq<Byte>> {
    seq(|levels|, i requires 0 <= i < |levels| => levels[i].node.name)
  }

  /**
   The protocol: properties come before done, done comes once, subnodes and close after it, and
   every callback names the path of the nodes that are open; the outermost level stands for the block.
   */
  function Listen(h: Heard, e: Event): Heard {
    if h.Breach? || h.levels == [] then Breach else
    var top, below := h.levels[0], h.levels[1..];
    match e
    case Open(node) =>
      if !top.done || node == [] || NamesOf(node[1..]) + [[]] != OpenNames(h.levels) then Breach
      else Heard([Level(Node(node[0].name, [], []), false)] + h.levels)
    case Property(node, name, len, value) =>
      if top.done || NamesOf(node) + [[]] != OpenNames(h.levels) then Breach
      else Heard([top.(node := top.node.(items := top.node.items + [Item(name, len, value)]))] + below)
    case Done(node) =>
      if top.done || NamesOf(node) + [[]] != OpenNames(h.levels) then Breach
      else Heard([top.(done := true)] + below)
    case Close(node) =>
      if !top.done || below == [] || NamesOf(node) + [[]] != OpenNames(h.levels) then Breach
      else Heard([below[0].(node := below[0].node.(subs := below[0].node.subs + [top.node]))] + below[1..])
  }

  function ListenAll(h: Heard, events: seq<Event>): Heard
    decreases |events|
  {
    if events == [] then h else ListenAll(Listen(h, events[0]), events[1..])
  }

  lemma {:induction false} ListenConcat(h: Heard, a: seq<Event>, b: seq<Event>)
    ensures ListenAll(h, a + b) == ListenAll(ListenAll(h, a), b)
    decreases |a|
  {
    hide Listen;
    if a == [] {
      assert a + b == b;
    } else {
      assert (a + b)[1..] == a[1..] + b;
      ListenConcat(Listen(h, a[0]), a[1..], b);
    }
  }

  lemma ListenOne(h: Heard, e: Event)
    ensures ListenAll(h, [e]) == Listen(h, e)
  {
    hide Listen;
    assert [e][1..] == [];
  }

  /** The listener stands at a node, with these levels around it. */
  ghost predicate At(levels: seq<Level>, node: seq<Frame>) {
    OpenNames(levels) == NamesOf(node) + [[]]
  }

  /** The innermost level replaced. */
  function WithTop(levels: seq<Level>, top: Level): seq<Level>
    requires levels != []
  {
    [top] + levels[1..]
  }

  lemma TopStays(levels: seq<Level>, top: Level, node: seq<Frame>, node': seq<Frame>)
    requires levels != [] && top.node.name == levels[0].node.name && At(levels, node) && NamesOf(node') == NamesOf(node)
    ensures At(WithTop(levels, top), node')
  {
    assert OpenNames(WithTop(levels, top)) == OpenNames(levels);
  }

  lemma NotedNames(node: seq<Frame>, name: seq<Byte>, value: seq<Word>)
    ensures NamesOf(Noted(node, name, value)) == NamesOf(node)
  {
    hide Ascii;
    var now := Noted(node, name, value);
    forall i | 0 <= i < |node| ensures now[i].name == node[i].name {
      if i > 0 { assert now[i] == now[1..][i - 1] && node[i] == node[1..][i - 1]; }
    }
  }

  lemma {:induction false} SettledNames(strings: seq<Byte>, body: Body, node: seq<Frame>)
    ensures NamesOf(Settled(strings, body, node)) == NamesOf(node)
  {
    hide Noted, StringAt, Number;
    match body
    case Nop(rest) => SettledNames(strings, rest, node);
    case Prop(off, _, value, rest) =>
      NotedNames(node, StringAt(strings, Number(off)), value);
      SettledNames(strings, rest, Noted(node, StringAt(strings, Number(off)), value));
    case _ =>
  }

  /** The properties of a node are heard in order. */
  lemma {:induction false} HearItems(strings: seq<Byte>, body: Body, node: seq<Frame>, levels: seq<Level>)
    requires levels != [] && !levels[0].done && At(levels, node) && BodyOk(strings, body)
    ensures var top := levels[0];
      ListenAll(Heard(levels), PropertyEvents(strings, body, node)) ==
      Heard(WithTop(levels, top.(node := top.node.(items := top.node.items + Items(strings, body)))))
    decreases body
  {
    hide Noted, StringAt, Number, BodyOk, NamesOf, OpenNames;
    BodyParts(strings, body);
    var top := levels[0];
    match body
    case End =>
      assert top.node.items + [] == top.node.items;
    case Nop(rest) => HearItems(strings, rest, node, levels);
    case Prop(off, len, value, rest) =>
      var name := StringAt(strings, Number(off));
      var now, item := Noted(node, name, value), Item(name, len, value);
      var next := WithTop(levels, top.(node := top.node.(items := top.node.items + [item])));
      NotedNames(node, name, value);
      TopStays(levels, next[0], node, now);
      ListenConcat(Heard(levels), [Property(now, name, len, value)], PropertyEvents(strings, rest, now));
      ListenOne(Heard(levels), Property(now, name, len, value));
      HearItems(strings, rest, now, next);
      assert top.node.items + [item] + Items(strings, rest) == top.node.items + ([item] + Items(strings, rest));
      assert WithTop(next, next[0]) == WithTop(levels, next[0]);
    case Sub(_, _, rest) =>
      NoItems(strings, body);
      assert top.node.items + [] == top.node.items;
  }

  /** Behind the first subnode there are no properties. */
  lemma {:induction false} NoItems(strings: seq<Byte>, body: Body)
    requires BodyOk(strings, body) && (body.Sub? || NoProps(body))
    ensures Items(strings, body) == []
  {
    hide PropOk, NameOk;
    match body
    case End =>
    case Nop(rest) => NoItems(strings, rest);
    case Sub(_, _, rest) => NoItems(strings, rest);
    case Prop(_, _, _, _) =>
  }

  /** The subnodes of a node are heard in order, each one whole. */
  lemma {:induction false} HearSubnodes(strings: seq<Byte>, body: Body, node: seq<Frame>, counts: Counts,
                                        levels: seq<Level>)
    requires levels != [] && levels[0].done && At(levels, node) && BodyOk(strings, body)
    ensures var top := levels[0];
      ListenAll(Heard(levels), ChildEvents(strings, body, node, counts)) ==
      Heard(WithTop(levels, top.(node := top.node.(subs := top.node.subs + Subnodes(strings, body)))))
    decreases body, 0
  {
    hide Listen, BodyOk, NamesOf, OpenNames, SubEvents, Settled;
    BodyParts(strings, body);
    var top := levels[0];
    match body
    case End =>
      assert top.node.subs + [] == top.node.subs;
    case Nop(rest) => HearSubnodes(strings, rest, node, counts, levels);
    case Prop(_, _, _, rest) => HearSubnodes(strings, rest, node, counts, levels);
    case Sub(name, b, rest) =>
      var child := [Frame(name, counts)] + node;
      var sub, counts' := Node(name, Items(strings, b), Subnodes(strings, b)), Settled(strings, b, child)[0].counts;
      var next := WithTop(levels, top.(node := top.node.(subs := top.node.subs + [sub])));
      HearSubnode(strings, b, name, node, counts, levels);
      TopStays(levels, next[0], node, node);
      ListenConcat(Heard(levels), SubEvents(strings, b, child), ChildEvents(strings, rest, node, counts'));
      HearSubnodes(strings, rest, node, counts', next);
      assert top.node.subs + [sub] + Subnodes(strings, rest) == top.node.subs + ([sub] + Subnodes(strings, rest));
  }

  lemma {:induction false} HearSubnode(strings: seq<Byte>, b: Body, name: seq<Byte>, node: seq<Frame>, counts: Counts,
                                       levels: seq<Level>)
    requires levels != [] && levels[0].done && At(levels, node) && BodyOk(strings, b)
    ensures var top, sub := levels[0], Node(name, Items(strings, b), Subnodes(strings, b));
      ListenAll(Heard(levels), SubEvents(strings, b, [Frame(name, counts)] + node)) ==
      Heard(WithTop(levels, top.(node := top.node.(subs := top.node.subs + [sub]))))
    decreases b, 2
  {
    hide BodyOk, TreeEvents, NamesOf, OpenNames, Settled;
    var child := [Frame(name, counts)] + node;
    var inner, settled := TreeEvents(strings, b, child, DefaultCounts), Settled(strings, b, child);
    var entered := [Level(Node(name, [], []), false)] + levels;
    Deeper(levels, node, name, counts);
    assert child[1..] == node && entered[1..] == levels;
    ListenConcat(Heard(levels), [Open(child)] + inner, [Close(settled)]);
    ListenConcat(Heard(levels), [Open(child)], inner);
    ListenOne(Heard(levels), Open(child));
    HearContents(strings, b, child, entered);
    var full := WithTop(entered, Level(Node(name, Items(strings, b), Subnodes(strings, b)), true));
    SettledNames(strings, b, child);
    TopStays(entered, full[0], child, settled);
    ListenOne(Heard(full), Close(settled));
  }

  lemma Deeper(levels: seq<Level>, node: seq<Frame>, name: seq<Byte>, counts: Counts)
    requires At(levels, node)
    ensures At([Level(Node(name, [], []), false)] + levels, [Frame(name, counts)] + node)
  {
    assert NamesOf([Frame(name, counts)] + node) == [name] + NamesOf(node);
    assert OpenNames([Level(Node(name, [], []), false)] + levels) == [name] + OpenNames(levels);
  }

  /** The contents of a node: its properties, done once, and its subnodes. */
  lemma {:induction false} HearContents(strings: seq<Byte>, b: Body, child: seq<Frame>, levels: seq<Level>)
    requires child != [] && levels != [] && !levels[0].done && At(levels, child) && BodyOk(strings, b)
    requires levels[0].node.items == [] && levels[0].node.subs == []
    ensures ListenAll(Heard(levels), TreeEvents(strings, b, child, DefaultCounts)) ==
      Heard(WithTop(levels, Level(Node(levels[0].node.name, Items(strings, b), Subnodes(strings, b)), true)))
    decreases b, 1
  {
    hide BodyOk, NamesOf, OpenNames, PropertyEvents, ChildEvents, Settled;
    var settled := Settled(strings, b, child);
    var props, subs := PropertyEvents(strings, b, child), ChildEvents(strings, b, settled, DefaultCounts);
    var name := levels[0].node.name;
    var read := WithTop(levels, Level(Node(name, Items(strings, b), []), false));
    var done := WithTop(levels, Level(Node(name, Items(strings, b), []), true));
    assert [] + Items(strings, b) == Items(strings, b) && [] + Subnodes(strings, b) == Subnodes(strings, b);
    ListenConcat(Heard(levels), props + [Done(settled)], subs);
    ListenConcat(Heard(levels), props, [Done(settled)]);
    HearItems(strings, b, child, levels);
    SettledNames(strings, b, child);
    TopStays(levels, read[0], child, settled);
    TopStays(levels, done[0], child, settled);
    ListenOne(Heard(read), Done(settled));
    HearSubnodes(strings, b, settled, DefaultCounts, done);
  }

  /**
   From the callbacks of a scan alone the tree comes back: every node with its name, its
   properties in order and its subnodes in order, and the protocol is kept throughout.
   */
  lemma CallbacksTellTheTree(strings: seq<Byte>, body: Body)
    requires BodyOk(strings, body) && NoProps(body)
    ensures ListenAll(Heard([Level(Node([], [], []), true)]), TreeEvents(strings, body, [], DefaultCounts)) ==
      Heard([Level(Node([], [], Subnodes(strings, body)), true)])
  {
    hide BodyOk, ChildEvents, Settled, PropertyEvents;
    var block := [Level(Node([], [], []), true)];
    NoPropsNothing(strings, body, []);
    assert TreeEvents(strings, body, [], DefaultCounts) == ChildEvents(strings, body, [], DefaultCounts);
    assert OpenNames(block) == NamesOf([]) + [[]];
    HearSubnodes(strings, body, [], DefaultCounts, block);
    assert [] + Subnodes(strings, body) == Subnodes(strings, body);
  }
}
