/** Flattened device trees: the blocks a tree stands for, a reference reader following
    section 5.4 of the Devicetree Specification, and the round trip between them. */
module Fdt {
  import opened Wrappers

  type byte = x: int | 0 <= x < 256

  datatype Prop = Prop(name: seq<byte>, data: seq<byte>)
  datatype Node = Node(name: seq<byte>, props: seq<Prop>, children: seq<Node>)

  const FDT_MAGIC := 0xD00DFEED
  const FDT_VERSION := 17
  const FDT_COMP_VERSION := 16
  const FDT_BEGIN_NODE := 1
  const FDT_END_NODE := 2
  const FDT_PROP := 3
  const FDT_NOP := 4
  const FDT_END := 9
  const FDT_HDR_SIZE := 40
  const FDT_RSV_SIZE := 16
  const TWO32 := 0x1_0000_0000

  function Octet(v: nat): byte {
    var r: int := v % 256;
    r
  }

  /** A 32-bit value in big-endian bytes. */
  function Be32(v: nat): (r: seq<byte>)
    ensures |r| == 4
  {
    var high: nat := v / 256;
    var higher: nat := high / 256;
    var highest: nat := higher / 256;
    [Octet(highest), Octet(higher), Octet(high), Octet(v)]
  }

  function Word(b: seq<byte>, at: nat): (v: nat)
    requires at + 4 <= |b|
    ensures v < TWO32
  {
    var b0: int, b1: int, b2: int, b3: int := b[at], b[at + 1], b[at + 2], b[at + 3];
    ((b0 * 256 + b1) * 256 + b2) * 256 + b3
  }

  function AlignUp(n: nat): (r: nat)
    ensures r % 4 == 0 && n <= r < n + 4
  {
    (n + 3) / 4 * 4
  }

  function Zeros(n: nat): (r: seq<byte>)
    ensures |r| == n
  {
    seq(n, _ => 0)
  }

  /** Bytes followed by zeros up to the next multiple of four. */
  function Padded(s: seq<byte>): (r: seq<byte>)
    ensures |r| == AlignUp(|s|) && r[..|s|] == s
  {
    s + Zeros(AlignUp(|s|) - |s|)
  }

  /** A name as a C string. */
  function CName(s: seq<byte>): (r: seq<byte>)
    ensures |r| == |s| + 1
  {
    s + [0]
  }

  // ---- the two blocks ----

  function NamesOf(props: seq<Prop>): seq<byte>
  {
    if props == [] then [] else Padded(CName(props[0].name)) + NamesOf(props[1..])
  }

  function PropsOf(props: seq<Prop>, so: nat): seq<byte>
  {
    if props == [] then []
    else PropBytes(props[0], so) + PropsOf(props[1..], so + |Padded(CName(props[0].name))|)
  }

  function PropBytes(p: Prop, so: nat): (r: seq<byte>)
    ensures |r| == 12 + AlignUp(|p.data|)
  {
    Be32(FDT_PROP) + Be32(|p.data|) + Be32(so) + Padded(p.data)
  }

  /** The strings block of a tree. */
  function StringsOf(node: Node): seq<byte>
    decreases node, |node.children| + 1
  {
    NamesOf(node.props) + KidsStrings(node, 0)
  }

  function KidsStrings(node: Node, i: nat): seq<byte>
    requires i <= |node.children|
    decreases node, |node.children| - i
  {
    if i == |node.children| then [] else StringsOf(node.children[i]) + KidsStrings(node, i + 1)
  }

  function NodeHead(name: seq<byte>): (r: seq<byte>)
    ensures |r| == 4 + AlignUp(|name| + 1)
  {
    Be32(FDT_BEGIN_NODE) + Padded(CName(name))
  }

  /** The structure block of a tree whose first property name falls at offset `so` of the strings. */
  function StructOf(node: Node, so: nat): seq<byte>
    decreases node, |node.children| + 1
  {
    NodeHead(node.name) + PropsOf(node.props, so) + KidsOf(node, 0, so + |NamesOf(node.props)|) + Be32(FDT_END_NODE)
  }

  function KidsOf(node: Node, i: nat, so: nat): seq<byte>
    requires i <= |node.children|
    decreases node, |node.children| - i
  {
    if i == |node.children| then []
    else StructOf(node.children[i], so) + KidsOf(node, i + 1, so + |StringsOf(node.children[i])|)
  }

  predicate Aligned(n: nat) { n % 4 == 0 }

  lemma SumAligned(m: nat, n: nat)
    requires Aligned(m) && Aligned(n)
    ensures Aligned(m + n)
  {
  }

  lemma PiecesAligned(name: seq<byte>, p: Prop, so: nat)
    ensures Aligned(|NodeHead(name)|) && Aligned(|PropBytes(p, so)|) && Aligned(|Padded(CName(p.name))|)
    ensures Aligned(|Be32(so)|) && Aligned(0)
  {
    hide Padded, CName, Be32, NodeHead, PropBytes;
    Upward(|name| + 1);
    Upward(|p.data|);
  }

  lemma Upward(n: nat)
    ensures Aligned(AlignUp(n)) && Aligned(4 + AlignUp(n)) && Aligned(12 + AlignUp(n))
  {
  }

  /** Both blocks, and so every offset in them where something starts, are multiples of four. */
  lemma {:induction false} BlocksAligned(node: Node, so: nat)
    ensures Aligned(|StructOf(node, so)|) && Aligned(|StringsOf(node)|)
    decreases node, |node.children| + 1
  {
    hide NodeHead, PropsOf, KidsOf, NamesOf, KidsStrings, Aligned, Be32;
    var names := NamesOf(node.props);
    var head, props, kids := NodeHead(node.name), PropsOf(node.props, so), KidsOf(node, 0, so + |names|);
    PiecesAligned(node.name, Prop([], []), FDT_END_NODE);
    PropsAligned(node.props, so);
    KidsAligned(node, 0, so + |names|);
    SumAligned(|head|, |props|);
    SumAligned(|head| + |props|, |kids|);
    SumAligned(|head| + |props| + |kids|, 4);
    SumAligned(|names|, |KidsStrings(node, 0)|);
  }

  lemma {:induction false} KidsAligned(node: Node, i: nat, so: nat)
    requires i <= |node.children|
    ensures Aligned(|KidsOf(node, i, so)|) && Aligned(|KidsStrings(node, i)|)
    decreases node, |node.children| - i
  {
    hide StructOf, StringsOf, Aligned;
    if i == |node.children| {
      PiecesAligned([], Prop([], []), 0);
    } else {
      var kid := node.children[i];
      var rest := so + |StringsOf(kid)|;
      BlocksAligned(kid, so);
      KidsAligned(node, i + 1, rest);
      SumAligned(|StructOf(kid, so)|, |KidsOf(node, i + 1, rest)|);
      SumAligned(|StringsOf(kid)|, |KidsStrings(node, i + 1)|);
    }
  }

  lemma {:induction false} PropsAligned(props: seq<Prop>, so: nat)
    ensures Aligned(|PropsOf(props, so)|) && Aligned(|NamesOf(props)|)
    decreases |props|
  {
    hide Padded, CName, PropBytes, Aligned;
    if props == [] {
      PiecesAligned([], Prop([], []), 0);
    } else {
      var name := Padded(CName(props[0].name));
      PiecesAligned([], props[0], so);
      PropsAligned(props[1..], so + |name|);
      SumAligned(|PropBytes(props[0], so)|, |PropsOf(props[1..], so + |name|)|);
      SumAligned(|name|, |NamesOf(props[1..])|);
    }
  }

  // ---- the reader ----

  /** The bytes from `at` up to the first zero. */
  function ReadName(b: seq<byte>, at: nat): (r: Option<seq<byte>>)
    requires at <= |b|
    ensures r.Some? ==> at + |r.value| < |b|
    decreases |b| - at
  {
    if at == |b| then None
    else if b[at] == 0 then Some([])
    else match ReadName(b, at + 1) case None => None case Some(rest) => Some([b[at]] + rest)
  }

  datatype Parsed = Parsed(node: Node, next: nat)

  /** A node starting at `at`; property names are looked up in `strs`. */
  function ReadNode(b: seq<byte>, at: nat, strs: seq<byte>): (r: Option<Parsed>)
    ensures r.Some? ==> at < r.value.next <= |b|
    decreases |b| - at, 0
  {
    if at + 4 > |b| || Word(b, at) != FDT_BEGIN_NODE then None
    else
      match ReadName(b, at + 4)
      case None => None
      case Some(name) => ReadItems(b, at + 4 + AlignUp(|name| + 1), strs, Node(name, [], []))
  }

  /** The rest of a node: properties, then children, then the end token. */
  function ReadItems(b: seq<byte>, at: nat, strs: seq<byte>, n: Node): (r: Option<Parsed>)
    ensures r.Some? ==> at < r.value.next <= |b|
    decreases |b| - at, 1
  {
    if at + 4 > |b| then None
    else if Word(b, at) == FDT_END_NODE then Some(Parsed(n, at + 4))
    else if Word(b, at) == FDT_NOP then ReadItems(b, at + 4, strs, n)
    else if Word(b, at) == FDT_PROP && n.children == [] then
      if at + 12 > |b| || at + 12 + Word(b, at + 4) > |b| || Word(b, at + 8) > |strs| then None
      else
        match ReadName(strs, Word(b, at + 8))
        case None => None
        case Some(name) =>
          ReadItems(b, at + 12 + AlignUp(Word(b, at + 4)), strs,
                    n.(props := n.props + [Prop(name, b[at + 12..at + 12 + Word(b, at + 4)])]))
    else
      match ReadNode(b, at, strs)
      case None => None
      case Some(kid) => ReadItems(b, kid.next, strs, n.(children := n.children + [kid.node]))
  }

  // ---- round trip ----

  /** `s` stands at `at` in `b`. */
  predicate At(b: seq<byte>, at: nat, s: seq<byte>) { at + |s| <= |b| && b[at..at + |s|] == s }

  predicate NulFree(s: seq<byte>) { 0 !in s }

  /** The trees the format can hold: no name has a zero byte, sizes fit 32 bits. */
  predicate Nameable(node: Node)
    decreases node
  {
    && NulFree(node.name)
    && (forall p :: p in node.props ==> NulFree(p.name) && |p.data| < TWO32)
    && forall k :: k in node.children ==> Nameable(k)
  }

  lemma AtSplit(b: seq<byte>, at: nat, s: seq<byte>, t: seq<byte>)
    requires At(b, at, s + t)
    ensures At(b, at, s) && At(b, at + |s|, t)
  {
    var all := b[at..at + |s + t|];
    assert all[..|s|] == s;
    assert all[|s|..] == t;
    assert b[at..at + |s|] == all[..|s|];
    assert b[at + |s|..at + |s| + |t|] == all[|s|..];
  }

  lemma WordAt(b: seq<byte>, at: nat, v: nat)
    requires At(b, at, Be32(v)) && v < TWO32
    ensures Word(b, at) == v
  {
    var s := b[at..at + 4];
    assert s[0] == b[at] && s[1] == b[at + 1] && s[2] == b[at + 2] && s[3] == b[at + 3];
  }

  lemma {:induction false} NameAt(b: seq<byte>, at: nat, name: seq<byte>)
    requires At(b, at, CName(name)) && NulFree(name)
    ensures ReadName(b, at) == Some(name)
    decreases |name|
  {
    assert b[at] == b[at..at + |name| + 1][0];
    if name != [] {
      assert CName(name) == [name[0]] + CName(name[1..]);
      AtSplit(b, at, [name[0]], CName(name[1..]));
      NameAt(b, at + 1, name[1..]);
      assert [name[0]] + name[1..] == name;
    }
  }

  lemma PaddedAt(b: seq<byte>, at: nat, s: seq<byte>)
    requires At(b, at, Padded(s))
    ensures At(b, at, s)
  {
    AtSplit(b, at, s, Zeros(AlignUp(|s|) - |s|));
  }

  /** One property read back. */
  lemma PropAt(b: seq<byte>, at: nat, strs: seq<byte>, so: nat, p: Prop, n: Node)
    requires At(b, at, PropBytes(p, so)) && At(strs, so, Padded(CName(p.name)))
    requires NulFree(p.name) && |p.data| < TWO32 && so < TWO32 && n.children == []
    ensures ReadItems(b, at, strs, n) == ReadItems(b, at + |PropBytes(p, so)|, strs, n.(props := n.props + [p]))
  {
    hide Be32, Word, Padded, CName, AlignUp;
    AtSplit(b, at, Be32(FDT_PROP) + Be32(|p.data|) + Be32(so), Padded(p.data));
    AtSplit(b, at, Be32(FDT_PROP) + Be32(|p.data|), Be32(so));
    AtSplit(b, at, Be32(FDT_PROP), Be32(|p.data|));
    WordAt(b, at, FDT_PROP);
    WordAt(b, at + 4, |p.data|);
    WordAt(b, at + 8, so);
    PaddedAt(b, at + 12, p.data);
    PaddedAt(strs, so, CName(p.name));
    NameAt(strs, so, p.name);
  }

  lemma {:induction false} PropsAt(b: seq<byte>, at: nat, strs: seq<byte>, so: nat, props: seq<Prop>, n: Node)
    requires At(b, at, PropsOf(props, so)) && At(strs, so, NamesOf(props))
    requires forall p :: p in props ==> NulFree(p.name) && |p.data| < TWO32
    requires |strs| < TWO32 && n.children == []
    ensures ReadItems(b, at, strs, n) == ReadItems(b, at + |PropsOf(props, so)|, strs, n.(props := n.props + props))
    decreases |props|
  {
    hide PropBytes, Padded, CName, AlignUp, At, ReadItems;
    if props == [] {
      assert n.props + props == n.props;
    } else {
      var p, names := props[0], Padded(CName(props[0].name));
      AtSplit(b, at, PropBytes(p, so), PropsOf(props[1..], so + |names|));
      AtSplit(strs, so, names, NamesOf(props[1..]));
      AtInside(strs, so, names);
      PropAt(b, at, strs, so, p, n);
      PropsAt(b, at + |PropBytes(p, so)|, strs, so + |names|, props[1..], n.(props := n.props + [p]));
      assert n.props + [p] + props[1..] == n.props + props;
    }
  }

  lemma AtInside(b: seq<byte>, at: nat, s: seq<byte>)
    requires At(b, at, s)
    ensures at + |s| <= |b|
  {
  }

  /** The children from the `i`-th on read back, then the node's end token. */
  lemma {:induction false} KidsAt(b: seq<byte>, at: nat, strs: seq<byte>, so: nat, node: Node, i: nat)
    requires i <= |node.children| && Nameable(node) && |strs| < TWO32
    requires At(b, at, KidsOf(node, i, so) + Be32(FDT_END_NODE)) && At(strs, so, KidsStrings(node, i))
    ensures ReadItems(b, at, strs, node.(children := node.children[..i]))
      == Some(Parsed(node, at + |KidsOf(node, i, so)| + 4))
    decreases node, |node.children| - i
  {
    hide At, StructOf, StringsOf, Be32, Word, ReadNode;
    var sofar := node.(children := node.children[..i]);
    if i == |node.children| {
      assert [] + Be32(FDT_END_NODE) == Be32(FDT_END_NODE);
      AtInside(b, at, Be32(FDT_END_NODE));
      WordAt(b, at, FDT_END_NODE);
      assert node.children[..i] == node.children;
    } else {
      var kid := node.children[i];
      var here, strings := StructOf(kid, so), StringsOf(kid);
      var rest := KidsOf(node, i + 1, so + |strings|);
      assert here + rest + Be32(FDT_END_NODE) == here + (rest + Be32(FDT_END_NODE));
      AtSplit(b, at, here, rest + Be32(FDT_END_NODE));
      AtSplit(strs, so, strings, KidsStrings(node, i + 1));
      NodeAt(b, at, strs, so, kid);
      NodeStarts(b, at, kid, so);
      assert sofar.children + [kid] == node.children[..i + 1];
      assert sofar.(children := sofar.children + [kid]) == node.(children := node.children[..i + 1]);
      KidsAt(b, at + |here|, strs, so + |strings|, node, i + 1);
    }
  }

  lemma NodeStarts(b: seq<byte>, at: nat, node: Node, so: nat)
    requires At(b, at, StructOf(node, so))
    ensures at + 4 <= |b| && Word(b, at) == FDT_BEGIN_NODE
  {
    hide Word, NodeHead, PropsOf, KidsOf;
    var rest := PropsOf(node.props, so) + KidsOf(node, 0, so + |NamesOf(node.props)|) + Be32(FDT_END_NODE);
    assert StructOf(node, so) == NodeHead(node.name) + rest;
    AtSplit(b, at, NodeHead(node.name), rest);
    HeadAt(b, at, node.name);
  }

  lemma HeadAt(b: seq<byte>, at: nat, name: seq<byte>)
    requires At(b, at, NodeHead(name))
    ensures at + 4 <= |b| && Word(b, at) == FDT_BEGIN_NODE && At(b, at + 4, CName(name))
  {
    AtSplit(b, at, Be32(FDT_BEGIN_NODE), Padded(CName(name)));
    WordAt(b, at, FDT_BEGIN_NODE);
    PaddedAt(b, at + 4, CName(name));
  }

  /** Reading a tree where its blocks stand gives the tree: names, properties in order with
      their bytes, children in order. */
  lemma {:induction false} NodeAt(b: seq<byte>, at: nat, strs: seq<byte>, so: nat, node: Node)
    requires Nameable(node) && |strs| < TWO32
    requires At(b, at, StructOf(node, so)) && At(strs, so, StringsOf(node))
    ensures ReadNode(b, at, strs) == Some(Parsed(node, at + |StructOf(node, so)|))
    decreases node, |node.children| + 1
  {
    hide At, Word, Be32, NodeHead, PropsOf, KidsOf, NamesOf, KidsStrings, ReadItems, CName, NulFree;
    var head, props := NodeHead(node.name), PropsOf(node.props, so);
    var so' := so + |NamesOf(node.props)|;
    var kids := KidsOf(node, 0, so') + Be32(FDT_END_NODE);
    assert StructOf(node, so) == head + (props + kids);
    AtSplit(b, at, head, props + kids);
    AtSplit(b, at + |head|, props, kids);
    AtSplit(strs, so, NamesOf(node.props), KidsStrings(node, 0));
    HeadAt(b, at, node.name);
    NameAt(b, at + 4, node.name);
    var bare := Node(node.name, [], []);
    PropsAt(b, at + |head|, strs, so, node.props, bare);
    assert [] + node.props == node.props;
    assert bare.(props := node.props) == node.(children := node.children[..0]);
    KidsAt(b, at + |head| + |props|, strs, so', node, 0);
  }
}
