/** The serializer: a pass that measures a tree and a pass that writes its two blocks into
    two growing regions of one buffer. */
module FdtWriter {
  import opened Wrappers
  import opened Fdt

  const HEAD_SIZE := 56

  // ---- the whole blob ----

  function Header(structSize: nat, stringSize: nat, cpu: nat): (r: seq<byte>)
    ensures |r| == FDT_HDR_SIZE
  {
    Be32(FDT_MAGIC) + Be32(HEAD_SIZE + structSize + stringSize) + Be32(HEAD_SIZE) + Be32(HEAD_SIZE + structSize)
    + Be32(FDT_HDR_SIZE) + Be32(FDT_VERSION) + Be32(FDT_COMP_VERSION) + Be32(cpu) + Be32(stringSize) + Be32(structSize)
  }

  /** The structure block with its closing token. */
  function StructBlock(node: Node): seq<byte> { StructOf(node, 0) + Be32(FDT_END) }

  function Front(structSize: nat, stringSize: nat, cpu: nat): (r: seq<byte>)
    ensures |r| == HEAD_SIZE
  {
    Header(structSize, stringSize, cpu) + Zeros(FDT_RSV_SIZE)
  }

  /** Header, empty reservation map, structure block, strings block. */
  function Blob(node: Node, cpu: nat): seq<byte> {
    Front(|StructBlock(node)|, |StringsOf(node)|, cpu) + StructBlock(node) + StringsOf(node)
  }

  function BlobSize(node: Node): nat { HEAD_SIZE + |StructBlock(node)| + |StringsOf(node)| }

  // ---- reading a blob ----

  /** A reader of version 16 blobs: header checks, then the tree, which the end token must follow. */
  function ReadTree(b: seq<byte>): Option<Node> {
    if |b| < FDT_HDR_SIZE || Word(b, 0) != FDT_MAGIC || Word(b, 4) > |b| || Word(b, 24) > 17 then None
    else
      var strings, size := Word(b, 12), Word(b, 32);
      if strings + size > |b| then None
      else
        match ReadNode(b, Word(b, 8), b[strings..strings + size])
        case None => None
        case Some(p) =>
          if p.next + 4 > |b| || Word(b, p.next) != FDT_END || p.next + 4 != Word(b, 8) + Word(b, 36) then None
          else Some(p.node)
  }

  lemma AtFront(s: seq<byte>, t: seq<byte>)
    ensures At(s + t, 0, s) && At(s + t, |s|, t)
  {
  }

  lemma HeaderWords(b: seq<byte>, structSize: nat, stringSize: nat, cpu: nat)
    requires At(b, 0, Header(structSize, stringSize, cpu))
    requires HEAD_SIZE + structSize + stringSize < TWO32 && cpu < TWO32
    ensures |b| >= FDT_HDR_SIZE
    ensures Word(b, 0) == FDT_MAGIC && Word(b, 4) == HEAD_SIZE + structSize + stringSize && Word(b, 8) == HEAD_SIZE
    ensures Word(b, 12) == HEAD_SIZE + structSize && Word(b, 16) == FDT_HDR_SIZE
    ensures Word(b, 20) == FDT_VERSION && Word(b, 24) == FDT_COMP_VERSION && Word(b, 28) == cpu
    ensures Word(b, 32) == stringSize && Word(b, 36) == structSize
  {
    hide Be32, Word;
    var w0, w1, w2, w3 := Be32(FDT_MAGIC), Be32(HEAD_SIZE + structSize + stringSize), Be32(HEAD_SIZE), Be32(HEAD_SIZE + structSize);
    var w4, w5, w6 := Be32(FDT_HDR_SIZE), Be32(FDT_VERSION), Be32(FDT_COMP_VERSION);
    var w7, w8, w9 := Be32(cpu), Be32(stringSize), Be32(structSize);
    hide At;
    AtSplit(b, 0, w0 + w1 + w2 + w3 + w4 + w5 + w6 + w7 + w8, w9);
    AtSplit(b, 0, w0 + w1 + w2 + w3 + w4 + w5 + w6 + w7, w8);
    AtSplit(b, 0, w0 + w1 + w2 + w3 + w4 + w5 + w6, w7);
    AtSplit(b, 0, w0 + w1 + w2 + w3 + w4 + w5, w6);
    AtSplit(b, 0, w0 + w1 + w2 + w3 + w4, w5);
    AtSplit(b, 0, w0 + w1 + w2 + w3, w4);
    AtSplit(b, 0, w0 + w1 + w2, w3);
    AtSplit(b, 0, w0 + w1, w2);
    AtSplit(b, 0, w0, w1);
    AtInside(b, 36, w9);
    WordAt(b, 0, FDT_MAGIC);
    WordAt(b, 4, HEAD_SIZE + structSize + stringSize);
    WordAt(b, 8, HEAD_SIZE);
    WordAt(b, 12, HEAD_SIZE + structSize);
    WordAt(b, 16, FDT_HDR_SIZE);
    WordAt(b, 20, FDT_VERSION);
    WordAt(b, 24, FDT_COMP_VERSION);
    WordAt(b, 28, cpu);
    WordAt(b, 32, stringSize);
    WordAt(b, 36, structSize);
  }

  lemma BlobParts(node: Node, cpu: nat)
    ensures |Blob(node, cpu)| == BlobSize(node)
    ensures At(Blob(node, cpu), 0, Header(|StructBlock(node)|, |StringsOf(node)|, cpu))
    ensures At(Blob(node, cpu), HEAD_SIZE, StructOf(node, 0))
    ensures At(Blob(node, cpu), HEAD_SIZE + |StructOf(node, 0)|, Be32(FDT_END))
    ensures At(Blob(node, cpu), HEAD_SIZE + |StructBlock(node)|, StringsOf(node))
  {
    var b := Blob(node, cpu);
    var block, strings := StructBlock(node), StringsOf(node);
    var front := Front(|block|, |strings|, cpu);
    AtFront(front + block, strings);
    hide At, Header, Zeros, StructOf, StringsOf, Be32;
    AtSplit(b, 0, front, block);
    AtSplit(b, 0, Header(|block|, |strings|, cpu), Zeros(FDT_RSV_SIZE));
    AtSplit(b, HEAD_SIZE, StructOf(node, 0), Be32(FDT_END));
  }

  /** Reading a serialized tree gives the tree back. */
  lemma BlobRoundTrip(node: Node, cpu: nat)
    requires Nameable(node) && BlobSize(node) < TWO32 && cpu < TWO32
    ensures ReadTree(Blob(node, cpu)) == Some(node)
  {
    hide Blob, Header, StructOf, StringsOf, Be32, Word, ReadNode, Nameable;
    var b := Blob(node, cpu);
    var strs := StringsOf(node);
    BlobParts(node, cpu);
    HeaderWords(b, |StructBlock(node)|, |strs|, cpu);
    WordAt(b, HEAD_SIZE + |StructOf(node, 0)|, FDT_END);
    assert strs[0..|strs|] == strs;
    NodeAt(b, HEAD_SIZE, strs, 0, node);
  }

  // ---- the measuring pass ----

  /** Unsigned 32-bit arithmetic. */
  function Wrap(n: nat): (r: nat)
    ensures r < TWO32
  {
    n % TWO32
  }

  lemma WrapLeft(m: nat, n: nat)
    ensures Wrap(Wrap(m) + n) == Wrap(m + n)
  {
  }

  lemma WrapAdds(m: nat, n: nat)
    ensures Wrap(Wrap(m) + n) == Wrap(m + n) && Wrap(m + Wrap(n)) == Wrap(m + n)
  {
    hide Wrap;
    WrapLeft(m, n);
    WrapLeft(n, m);
  }

  function PropsLen(props: seq<Prop>): nat {
    if props == [] then 0 else 12 + AlignUp(|props[0].data|) + PropsLen(props[1..])
  }

  function NamesLen(props: seq<Prop>): nat {
    if props == [] then 0 else AlignUp(|props[0].name| + 1) + NamesLen(props[1..])
  }

  function TreeLen(node: Node): nat
    decreases node, |node.children| + 1
  {
    8 + AlignUp(|node.name| + 1) + PropsLen(node.props) + KidsLen(node, 0)
  }

  function KidsLen(node: Node, i: nat): nat
    requires i <= |node.children|
    decreases node, |node.children| - i
  {
    if i == |node.children| then 0 else TreeLen(node.children[i]) + KidsLen(node, i + 1)
  }

  function TextLen(node: Node): nat
    decreases node, |node.children| + 1
  {
    NamesLen(node.props) + KidsText(node, 0)
  }

  function KidsText(node: Node, i: nat): nat
    requires i <= |node.children|
    decreases node, |node.children| - i
  {
    if i == |node.children| then 0 else TextLen(node.children[i]) + KidsText(node, i + 1)
  }

  /** The two passes agree: what is measured is how long the blocks are, wherever the names fall. */
  lemma {:induction false} LengthsAgree(node: Node, so: nat)
    ensures |StructOf(node, so)| == TreeLen(node) && |StringsOf(node)| == TextLen(node)
    decreases node, |node.children| + 1
  {
    hide NodeHead, PropsOf, KidsOf, NamesOf, Be32, KidsStrings, AlignUp;
    PropsLengths(node.props, so);
    KidsLengths(node, 0, so + |NamesOf(node.props)|);
  }

  lemma {:induction false} KidsLengths(node: Node, i: nat, so: nat)
    requires i <= |node.children|
    ensures |KidsOf(node, i, so)| == KidsLen(node, i) && |KidsStrings(node, i)| == KidsText(node, i)
    decreases node, |node.children| - i
  {
    hide StructOf, StringsOf, TreeLen, TextLen;
    if i < |node.children| {
      LengthsAgree(node.children[i], so);
      KidsLengths(node, i + 1, so + |StringsOf(node.children[i])|);
    }
  }

  lemma {:induction false} PropsLengths(props: seq<Prop>, so: nat)
    ensures |PropsOf(props, so)| == PropsLen(props) && |NamesOf(props)| == NamesLen(props)
    decreases |props|
  {
    hide PropBytes, Padded, AlignUp;
    if props != [] {
      PropsLengths(props[1..], so + |Padded(CName(props[0].name))|);
    }
  }

  class SizeDesc {
    var structSize: nat
    var stringSize: nat

    constructor ()
      ensures structSize == 0 && stringSize == 0
    {
      structSize, stringSize := 0, 0;
    }
  }

  method AddStruct(desc: SizeDesc, n: nat)
    modifies desc
    ensures desc.structSize == Wrap(old(desc.structSize) + n) && desc.stringSize == old(desc.stringSize)
  {
    WrapAdds(desc.structSize, n);
    desc.structSize := Wrap(desc.structSize + Wrap(n));
  }

  method AddString(desc: SizeDesc, n: nat)
    modifies desc
    ensures desc.stringSize == Wrap(old(desc.stringSize) + n) && desc.structSize == old(desc.structSize)
  {
    WrapAdds(desc.stringSize, n);
    desc.stringSize := Wrap(desc.stringSize + Wrap(n));
  }

  method MeasureProps(props: seq<Prop>, desc: SizeDesc)
    modifies desc
    requires desc.structSize < TWO32 && desc.stringSize < TWO32
    ensures desc.structSize == Wrap(old(desc.structSize) + PropsLen(props))
    ensures desc.stringSize == Wrap(old(desc.stringSize) + NamesLen(props))
  {
    WrapSmall(desc.structSize);
    WrapSmall(desc.stringSize);
    hide Wrap, AlignUp;
    hide Padded, CName;
    ghost var s0, t0 := desc.structSize, desc.stringSize;
    ghost var s: nat, t: nat := 0, 0;
    assert props[0..] == props;
    for i := 0 to |props|
      invariant desc.structSize == Wrap(s0 + s) && s + PropsLen(props[i..]) == PropsLen(props)
      invariant desc.stringSize == Wrap(t0 + t) && t + NamesLen(props[i..]) == NamesLen(props)
    {
      var p := props[i];
      assert props[i..][1..] == props[i + 1..];
      WrapAdds(s0 + s, 12);
      AddStruct(desc, 12);
      WrapAdds(s0 + s + 12, AlignUp(|p.data|));
      AddStruct(desc, AlignUp(|p.data|));
      WrapAdds(t0 + t, AlignUp(|p.name| + 1));
      AddString(desc, AlignUp(|p.name| + 1));
      s, t := s + 12 + AlignUp(|p.data|), t + AlignUp(|p.name| + 1);
    }
  }

  lemma WrapSmall(n: nat)
    requires n < TWO32
    ensures Wrap(n) == n
  {
  }

  /** Adds the lengths of the two blocks the writing pass will produce, in 32-bit arithmetic. */
  method GetTreeSize(node: Node, desc: SizeDesc)
    modifies desc
    requires desc.structSize < TWO32 && desc.stringSize < TWO32
    ensures desc.structSize == Wrap(old(desc.structSize) + TreeLen(node))
    ensures desc.stringSize == Wrap(old(desc.stringSize) + TextLen(node))
    decreases node
  {
    hide Wrap, AlignUp, PropsLen, NamesLen;
    ghost var s0, t0 := desc.structSize, desc.stringSize;
    var nameLen := AlignUp(if node.name == [] then 1 else |node.name| + 1);
    AddStruct(desc, 4 + nameLen);
    WrapAdds(s0 + 4 + nameLen, PropsLen(node.props));
    MeasureProps(node.props, desc);
    ghost var s: nat, t: nat := 4 + nameLen + PropsLen(node.props), NamesLen(node.props);
    for i := 0 to |node.children|
      invariant desc.structSize == Wrap(s0 + s) && s + KidsLen(node, i) + 4 == TreeLen(node)
      invariant desc.stringSize == Wrap(t0 + t) && t + KidsText(node, i) == TextLen(node)
    {
      var kid := node.children[i];
      WrapAdds(s0 + s, TreeLen(kid));
      WrapAdds(t0 + t, TextLen(kid));
      GetTreeSize(kid, desc);
      s, t := s + TreeLen(kid), t + TextLen(kid);
    }
    WrapAdds(s0 + s, 4);
    AddStruct(desc, 4);
  }

  /** `size_of_tree`, for any tree: the size of the blob in 32-bit arithmetic. */
  method SizeOfTree(node: Node) returns (size: nat)
    ensures size == Wrap(BlobSize(node))
  {
    hide Wrap, TreeLen, TextLen, StructOf, StringsOf;
    LengthsAgree(node, 0);
    var desc := new SizeDesc();
    GetTreeSize(node, desc);
    WrapAdds(TreeLen(node), 4);
    AddStruct(desc, 4);
    WrapAdds(HEAD_SIZE + desc.structSize, TextLen(node));
    WrapAdds(HEAD_SIZE + TextLen(node), TreeLen(node) + 4);
    size := Wrap(HEAD_SIZE + desc.structSize + desc.stringSize);
  }

  // ---- the writing pass ----

  /** `memcpy` into the buffer. */
  method CopyBytes(buf: array<byte>, at: nat, s: seq<byte>)
    requires at + |s| <= buf.Length
    modifies buf
    ensures At(buf[..], at, s)
    ensures forall j :: 0 <= j < buf.Length && !(at <= j < at + |s|) ==> buf[j] == old(buf[j])
  {
    for i := 0 to |s|
      invariant forall j :: 0 <= j < i ==> buf[at + j] == s[j]
      invariant forall j :: 0 <= j < buf.Length && !(at <= j < at + i) ==> buf[j] == old(buf[j])
    {
      buf[at + i] := s[i];
    }
    assert buf[..][at..at + |s|] == s;
  }

  /** `strlen` */
  method StrLen(s: seq<byte>) returns (n: nat)
    ensures n <= |s| && 0 !in s[..n] && (n < |s| ==> s[n] == 0)
  {
    n := 0;
    while n < |s| && s[n] != 0
      invariant n <= |s| && 0 !in s[..n]
    {
      n := n + 1;
    }
  }

  /** A region of the buffer that has been written up to a point and is zero after it. */
  ghost predicate Region(b: seq<byte>, base: nat, written: seq<byte>, limit: nat) {
    && base + |written| <= limit <= |b|
    && (forall i :: base <= i < base + |written| ==> b[i] == written[i - base])
    && (forall i :: base + |written| <= i < limit ==> b[i] == 0)
  }

  lemma RegionGrows(b: seq<byte>, b': seq<byte>, base: nat, written: seq<byte>, limit: nat, s: seq<byte>)
    requires Region(b, base, written, limit) && base + |written| + AlignUp(|s|) <= limit && |b'| == |b|
    requires At(b', base + |written|, s)
    requires forall j :: 0 <= j < |b| && !(base + |written| <= j < base + |written| + |s|) ==> b'[j] == b[j]
    ensures Region(b', base, written + Padded(s), limit)
  {
    var at, all := base + |written|, written + Padded(s);
    hide AlignUp;
    forall i | base <= i < base + |all| ensures b'[i] == all[i - base] {
      if at <= i < at + |s| {
        assert b'[i] == b'[at..at + |s|][i - at];
      }
    }
  }

  lemma RegionKept(b: seq<byte>, b': seq<byte>, base: nat, written: seq<byte>, limit: nat)
    requires Region(b, base, written, limit) && |b'| == |b|
    requires forall j :: base <= j < limit ==> b'[j] == b[j]
    ensures Region(b', base, written, limit)
  {
  }

  lemma AlignStep(m: nat, n: nat)
    requires Aligned(m)
    ensures AlignUp(m + n) == m + AlignUp(n) && Aligned(m + AlignUp(n))
  {
  }

  lemma Assoc(a: seq<byte>, b: seq<byte>, c: seq<byte>)
    ensures a + b + c == a + (b + c)
  {
  }

  lemma PropsStep(props: seq<Prop>, i: nat, so: nat)
    requires i < |props|
    ensures
      var pad := Padded(CName(props[i].name));
      PropsOf(props[i..], so) == PropBytes(props[i], so) + PropsOf(props[i + 1..], so + |pad|)
      && NamesOf(props[i..]) == pad + NamesOf(props[i + 1..])
  {
    hide Padded, CName, PropBytes;
    assert props[i..][1..] == props[i + 1..];
  }

  lemma PropsEnd(props: seq<Prop>, so: nat)
    ensures PropsOf(props[|props|..], so) == [] && NamesOf(props[|props|..]) == []
  {
  }

  lemma LengthOfName(s: seq<byte>, len: nat)
    requires NulFree(s) && len <= |s| + 1 && 0 !in CName(s)[..len] && (len < |s| + 1 ==> CName(s)[len] == 0)
    ensures len == |s| && CName(s)[..len + 1] == CName(s)
  {
    assert CName(s)[|s|] == 0;
    assert forall j :: 0 <= j < |s| ==> CName(s)[j] == s[j] && s[j] in s;
    assert forall j :: 0 <= j < len ==> CName(s)[..len][j] == CName(s)[j] && CName(s)[j] in CName(s)[..len];
  }

  class Serializer {
    const buf: array<byte>
    const stringsBegin: nat
    const total: nat
    var structOff: nat
    var stringsOff: nat
    ghost var blocks: seq<byte>   // the structure block so far
    ghost var names: seq<byte>    // the strings block so far

    ghost predicate Valid()
      reads this, buf
    {
      && Region(buf[..], HEAD_SIZE, blocks, stringsBegin) && structOff == HEAD_SIZE + |blocks| && Aligned(structOff)
      && Region(buf[..], stringsBegin, names, total) && stringsOff == stringsBegin + |names| && Aligned(stringsOff)
    }

    constructor (buffer: array<byte>, begin: nat, end: nat)
      requires HEAD_SIZE <= begin <= end <= buffer.Length && Aligned(begin)
      requires forall i :: HEAD_SIZE <= i < end ==> buffer[i] == 0
      ensures Valid() && buf == buffer && stringsBegin == begin && total == end && blocks == [] && names == []
    {
      buf, stringsBegin, total := buffer, begin, end;
      structOff, stringsOff := HEAD_SIZE, begin;
      blocks, names := [], [];
    }

    /** Only the two regions change. */
    twostate predicate Framed()
      reads this, buf
    {
      forall j :: 0 <= j < buf.Length && !(HEAD_SIZE <= j < total) ==> buf[j] == old(buf[j])
    }

    /** Copies into the structure region and moves on to the next 4-byte boundary. */
    method PutStruct(s: seq<byte>)
      requires Valid() && structOff + AlignUp(|s|) <= stringsBegin
      modifies this`structOff, this`blocks, buf
      ensures Valid() && Framed() && blocks == old(blocks) + Padded(s) && names == old(names)
    {
      hide Region, AlignUp, Aligned, At, Padded;
      RegionBounds(buf[..], stringsBegin, names, total);
      AlignStep(structOff, |s|);
      ghost var before := buf[..];
      CopyBytes(buf, structOff, s);
      RegionGrows(before, buf[..], HEAD_SIZE, blocks, stringsBegin, s);
      RegionKept(before, buf[..], stringsBegin, names, total);
      blocks := blocks + Padded(s);
      structOff := AlignUp(structOff + |s|);
    }

    method SerU32(v: nat)
      requires Valid() && structOff + 4 <= stringsBegin
      modifies this`structOff, this`blocks, buf
      ensures Valid() && Framed() && blocks == old(blocks) + Be32(v) && names == old(names)
    {
      hide Region, Aligned, At, Be32;
      WordPadded(v);
      PutStruct(Be32(v));
    }

    /** A node name; C strings end at the first zero. */
    method SerString(s: seq<byte>)
      requires Valid() && NulFree(s) && structOff + AlignUp(|s| + 1) <= stringsBegin
      modifies this`structOff, this`blocks, buf
      ensures Valid() && Framed() && blocks == old(blocks) + Padded(CName(s)) && names == old(names)
    {
      hide Region, Aligned, At, AlignUp, Padded;
      var len := StrLen(CName(s));
      LengthOfName(s, len);
      PutStruct(CName(s)[..len + 1]);
    }

    method SerData(s: seq<byte>)
      requires Valid() && structOff + AlignUp(|s|) <= stringsBegin
      modifies this`structOff, this`blocks, buf
      ensures Valid() && Framed() && blocks == old(blocks) + Padded(s) && names == old(names)
    {
      PutStruct(s);
    }

    /** A property name, into the strings region. */
    method SerName(s: seq<byte>)
      requires Valid() && NulFree(s) && stringsOff + AlignUp(|s| + 1) <= total
      modifies this`stringsOff, this`names, buf
      ensures Valid() && Framed() && names == old(names) + Padded(CName(s)) && blocks == old(blocks)
    {
      hide Region, Aligned, At, AlignUp, Padded;
      var len := StrLen(CName(s));
      LengthOfName(s, len);
      var t := CName(s)[..len + 1];
      RegionBounds(buf[..], stringsBegin, names, total);
      AlignAbove(|t|);
      AlignStep(stringsOff, |t|);
      ghost var before := buf[..];
      CopyBytes(buf, stringsOff, t);
      RegionGrows(before, buf[..], stringsBegin, names, total, t);
      RegionKept(before, buf[..], HEAD_SIZE, blocks, stringsBegin);
      names := names + Padded(t);
      stringsOff := AlignUp(stringsOff + |t|);
    }

    /** One property: token, length, name offset and data, and its name in the strings. */
    method SerProp(p: Prop)
      requires Valid() && NulFree(p.name)
      requires structOff + |PropBytes(p, 0)| <= stringsBegin && stringsOff + AlignUp(|p.name| + 1) <= total
      modifies this`structOff, this`blocks, this`stringsOff, this`names, buf
      ensures Valid() && Framed()
      ensures blocks == old(blocks) + PropBytes(p, |old(names)|) && names == old(names) + Padded(CName(p.name))
    {
      hide Region, Aligned, At, Be32, Padded;
      SerU32(FDT_PROP);
      SerU32(|p.data|);
      SerU32(stringsOff - stringsBegin);
      SerData(p.data);
      SerName(p.name);
      var so := |old(names)|;
      assert old(blocks) + Be32(FDT_PROP) + Be32(|p.data|) + Be32(so) + Padded(p.data)
        == old(blocks) + (Be32(FDT_PROP) + Be32(|p.data|) + Be32(so) + Padded(p.data));
    }

    method SerProps(props: seq<Prop>)
      requires Valid() && forall p :: p in props ==> NulFree(p.name)
      requires structOff + |PropsOf(props, |names|)| <= stringsBegin && stringsOff + |NamesOf(props)| <= total
      modifies this`structOff, this`blocks, this`stringsOff, this`names, buf
      ensures Valid() && Framed()
      ensures blocks == old(blocks) + PropsOf(props, |old(names)|) && names == old(names) + NamesOf(props)
    {
      hide Region, Aligned, At, Padded, NulFree, CName, PropBytes, AlignUp, PropsOf, NamesOf;
      PropsEnd(props, |names|);
      ghost var endBlocks, endNames := blocks + PropsOf(props, |names|), names + NamesOf(props);
      assert props[0..] == props;
      for i := 0 to |props|
        invariant Valid() && Framed()
        invariant blocks + PropsOf(props[i..], |names|) == endBlocks
        invariant names + NamesOf(props[i..]) == endNames
      {
        var p := props[i];
        ghost var so, pad := |names|, Padded(CName(p.name));
        PropSizes(p, so);
        PropsStep(props, i, so);
        Assoc(blocks, PropBytes(p, so), PropsOf(props[i + 1..], so + |pad|));
        Assoc(names, pad, NamesOf(props[i + 1..]));
        SerProp(p);
      }
      PropsEnd(props, |names|);
    }

    method SerKids(node: Node)
      requires Valid() && Nameable(node)
      requires structOff + |KidsOf(node, 0, |names|)| <= stringsBegin && stringsOff + |KidsStrings(node, 0)| <= total
      modifies this`structOff, this`blocks, this`stringsOff, this`names, buf
      ensures Valid() && Framed()
      ensures blocks == old(blocks) + KidsOf(node, 0, |old(names)|) && names == old(names) + KidsStrings(node, 0)
      decreases node, 0
    {
      hide Region, Aligned, At, StructOf, StringsOf, NulFree;
      ghost var endBlocks, endNames := blocks + KidsOf(node, 0, |names|), names + KidsStrings(node, 0);
      for i := 0 to |node.children|
        invariant Valid() && Framed()
        invariant blocks + KidsOf(node, i, |names|) == endBlocks && |endBlocks| + HEAD_SIZE <= stringsBegin
        invariant names + KidsStrings(node, i) == endNames && stringsBegin + |endNames| <= total
      {
        ghost var here, strings := StructOf(node.children[i], |names|), StringsOf(node.children[i]);
        ghost var rest, later := KidsOf(node, i + 1, |names| + |strings|), KidsStrings(node, i + 1);
        ghost var b, n := blocks, names;
        assert endBlocks == b + (here + rest) && endNames == n + (strings + later);
        SerTree(node.children[i]);
        assert b + here + rest == b + (here + rest) && n + strings + later == n + (strings + later);
      }
    }

    /** Writes a tree; every write stays inside the two regions. */
    method SerTree(node: Node)
      requires Valid() && Nameable(node)
      requires structOff + |StructOf(node, |names|)| <= stringsBegin && stringsOff + |StringsOf(node)| <= total
      modifies this`structOff, this`blocks, this`stringsOff, this`names, buf
      ensures Valid() && Framed()
      ensures blocks == old(blocks) + StructOf(node, |old(names)|) && names == old(names) + StringsOf(node)
      decreases node, 1
    {
      hide Region, Aligned, At, Padded, NulFree, CName, PropsOf, NamesOf, AlignUp, Be32, KidsOf, KidsStrings;
      ghost var so := |names|;
      ghost var head, props, own := NodeHead(node.name), PropsOf(node.props, so), NamesOf(node.props);
      ghost var kids, below := KidsOf(node, 0, so + |own|), KidsStrings(node, 0);
      NodeSizes(node.name);
      assert StructOf(node, so) == head + props + kids + Be32(FDT_END_NODE);
      ghost var blocks0, names0 := blocks, names;
      SerU32(FDT_BEGIN_NODE);
      SerString(node.name);
      assert blocks == blocks0 + head;
      hide NodeHead;
      SerProps(node.props);
      SerKids(node);
      SerU32(FDT_END_NODE);
      assert blocks == blocks0 + head + props + kids + Be32(FDT_END_NODE);
      assert blocks == blocks0 + (head + props + kids + Be32(FDT_END_NODE));
      assert names == names0 + (own + below);
    }
  }

  lemma RegionBounds(b: seq<byte>, base: nat, written: seq<byte>, limit: nat)
    requires Region(b, base, written, limit)
    ensures base + |written| <= limit <= |b|
  {
  }

  lemma AlignAbove(n: nat)
    ensures n <= AlignUp(n)
  {
  }

  lemma WordPadded(v: nat)
    ensures Padded(Be32(v)) == Be32(v) && AlignUp(4) == 4
  {
  }

  lemma PropSizes(p: Prop, so: nat)
    ensures |PropBytes(p, 0)| == |PropBytes(p, so)| == 12 + AlignUp(|p.data|)
    ensures |Padded(CName(p.name))| == AlignUp(|p.name| + 1)
  {
  }

  lemma NodeSizes(name: seq<byte>)
    ensures |NodeHead(name)| == 4 + AlignUp(|name| + 1)
    ensures NodeHead(name) == Be32(FDT_BEGIN_NODE) + Padded(CName(name))
  {
  }

  /** Zeroes the space and writes the header. */
  method WriteFront(buf: array<byte>, structSize: nat, stringSize: nat, cpu: nat)
    requires HEAD_SIZE + structSize + stringSize <= buf.Length
    modifies buf
    ensures At(buf[..], 0, Front(structSize, stringSize, cpu))
    ensures forall j :: HEAD_SIZE <= j < HEAD_SIZE + structSize + stringSize ==> buf[j] == 0
    ensures forall j :: HEAD_SIZE + structSize + stringSize <= j < buf.Length ==> buf[j] == old(buf[j])
  {
    hide Be32;
    var size := HEAD_SIZE + structSize + stringSize;
    for i := 0 to size
      invariant forall j :: 0 <= j < i ==> buf[j] == 0
      invariant forall j :: i <= j < buf.Length ==> buf[j] == old(buf[j])
    {
      buf[i] := 0;
    }
    ghost var before := buf[..];
    WriteHeader(buf, structSize, stringSize, cpu);
    FrontFilled(buf[..], structSize, stringSize, cpu);
  }

  lemma FrontFilled(b: seq<byte>, structSize: nat, stringSize: nat, cpu: nat)
    requires At(b, 0, Header(structSize, stringSize, cpu)) && |b| >= HEAD_SIZE
    requires forall j :: FDT_HDR_SIZE <= j < HEAD_SIZE ==> b[j] == 0
    ensures At(b, 0, Front(structSize, stringSize, cpu))
  {
    hide Header;
    var h := Header(structSize, stringSize, cpu);
    assert b[0..HEAD_SIZE] == b[0..FDT_HDR_SIZE] + Zeros(FDT_RSV_SIZE);
  }

  method WriteHeader(buf: array<byte>, structSize: nat, stringSize: nat, cpu: nat)
    requires buf.Length >= FDT_HDR_SIZE
    modifies buf
    ensures At(buf[..], 0, Header(structSize, stringSize, cpu))
    ensures forall j :: FDT_HDR_SIZE <= j < buf.Length ==> buf[j] == old(buf[j])
  {
    hide Be32;
    CopyWord(buf, 0, FDT_MAGIC, []);
    ghost var w := [] + Be32(FDT_MAGIC);
    CopyWord(buf, 4, HEAD_SIZE + structSize + stringSize, w);
    w := w + Be32(HEAD_SIZE + structSize + stringSize);
    CopyWord(buf, 8, HEAD_SIZE, w);
    w := w + Be32(HEAD_SIZE);
    CopyWord(buf, 12, HEAD_SIZE + structSize, w);
    w := w + Be32(HEAD_SIZE + structSize);
    CopyWord(buf, 16, FDT_HDR_SIZE, w);
    w := w + Be32(FDT_HDR_SIZE);
    CopyWord(buf, 20, FDT_VERSION, w);
    w := w + Be32(FDT_VERSION);
    CopyWord(buf, 24, FDT_COMP_VERSION, w);
    w := w + Be32(FDT_COMP_VERSION);
    CopyWord(buf, 28, cpu, w);
    w := w + Be32(cpu);
    CopyWord(buf, 32, stringSize, w);
    w := w + Be32(stringSize);
    CopyWord(buf, 36, structSize, w);
    w := w + Be32(structSize);
    assert [] + Be32(FDT_MAGIC) == Be32(FDT_MAGIC);
    assert w == Header(structSize, stringSize, cpu);
  }

  /** `write_be32_to_buf`, right after what has been written from the start on. */
  method CopyWord(buf: array<byte>, at: nat, v: nat, ghost sofar: seq<byte>)
    requires at + 4 <= buf.Length && |sofar| == at && At(buf[..], 0, sofar)
    modifies buf
    ensures At(buf[..], 0, sofar + Be32(v))
    ensures forall j :: 0 <= j < buf.Length && !(at <= j < at + 4) ==> buf[j] == old(buf[j])
  {
    hide Be32;
    assert forall j :: 0 <= j < at ==> buf[j] == buf[..][0..at][j];
    CopyBytes(buf, at, Be32(v));
    assert buf[..][0..at] == sofar;
    assert buf[..][0..at + 4] == buf[..][0..at] + buf[..][at..at + 4];
  }

  /** The sizes of the two blocks, when they fit 32 bits. */
  method Measure(node: Node) returns (structSize: nat, stringSize: nat)
    requires BlobSize(node) < TWO32
    ensures structSize == |StructBlock(node)| && stringSize == |StringsOf(node)|
  {
    hide Wrap, TreeLen, TextLen, StructOf, StringsOf;
    LengthsAgree(node, 0);
    var desc := new SizeDesc();
    GetTreeSize(node, desc);
    WrapAdds(TreeLen(node), 4);
    AddStruct(desc, 4);
    WrapSmall(|StructBlock(node)|);
    WrapSmall(|StringsOf(node)|);
    structSize, stringSize := desc.structSize, desc.stringSize;
  }

  lemma BlockAligned(node: Node)
    ensures Aligned(HEAD_SIZE + |StructBlock(node)|)
  {
    BlocksAligned(node, 0);
    hide StructOf, StringsOf;
  }

  /** `serialize`: nothing is written when the space is too small; else exactly the blob. */
  method Serialize(node: Node, buffer: array?<byte>, size: nat, cpu: nat) returns (n: nat)
    requires Nameable(node) && BlobSize(node) < TWO32
    requires buffer != null ==> size <= buffer.Length
    modifies buffer
    ensures n == if buffer != null && BlobSize(node) > size then 0 else BlobSize(node)
    ensures buffer != null && n == 0 ==> buffer[..] == old(buffer[..])
    ensures buffer != null && n > 0 ==> n <= size && buffer[..n] == Blob(node, cpu) && buffer[n..] == old(buffer[n..])
  {
    hide StructOf, StringsOf, Front, Nameable, Blob;
    var structSize, stringSize := Measure(node);
    var stringsBegin := FDT_HDR_SIZE + FDT_RSV_SIZE + structSize;
    n := stringsBegin + stringSize;
    if buffer != null {
      if n > size {
        return 0;
      }
      WriteBlob(buffer, node, structSize, stringSize, cpu);
    }
  }

  method WriteBlob(buf: array<byte>, node: Node, structSize: nat, stringSize: nat, cpu: nat)
    requires Nameable(node) && structSize == |StructBlock(node)| && stringSize == |StringsOf(node)|
    requires BlobSize(node) <= buf.Length
    modifies buf
    ensures buf[..BlobSize(node)] == Blob(node, cpu) && buf[BlobSize(node)..] == old(buf[BlobSize(node)..])
  {
    hide StringsOf, Front, Nameable, Blob, Region, At, Aligned, Be32;
    WriteFront(buf, structSize, stringSize, cpu);
    BlockAligned(node);
    ghost var front := buf[..];
    var ctx := new Serializer(buf, HEAD_SIZE + structSize, HEAD_SIZE + structSize + stringSize);
    hide StructOf;
    ctx.SerTree(node);
    ctx.SerU32(FDT_END);
    assert [] + StructOf(node, 0) == StructOf(node, 0) && [] + StringsOf(node) == StringsOf(node);
    assert ctx.structOff == ctx.stringsBegin && ctx.stringsOff == ctx.total;
    BlobWritten(buf[..], front, node, cpu);
  }

  lemma BlobWritten(b: seq<byte>, before: seq<byte>, node: Node, cpu: nat)
    requires |b| == |before| && BlobSize(node) <= |b|
    requires At(before, 0, Front(|StructBlock(node)|, |StringsOf(node)|, cpu))
    requires forall j :: 0 <= j < HEAD_SIZE ==> b[j] == before[j]
    requires Region(b, HEAD_SIZE, StructBlock(node), HEAD_SIZE + |StructBlock(node)|)
    requires Region(b, HEAD_SIZE + |StructBlock(node)|, StringsOf(node), BlobSize(node))
    ensures b[..BlobSize(node)] == Blob(node, cpu)
  {
    hide StructBlock, StringsOf, Front;
    var block, strings := StructBlock(node), StringsOf(node);
    var begin := HEAD_SIZE + |block|;
    assert b[..HEAD_SIZE] == before[0..HEAD_SIZE];
    assert b[HEAD_SIZE..begin] == block;
    assert b[begin..begin + |strings|] == strings;
    assert b[..BlobSize(node)] == b[..HEAD_SIZE] + b[HEAD_SIZE..begin] + b[begin..begin + |strings|];
  }
}
