/** One small tree, byte by byte as the Devicetree Specification lays a blob out. */
module FdtExample {
  import opened Fdt
  import opened FdtWriter

  /** A root with the property a = 01 02 and an empty child b. */
  const CHILD := Node([0x62], [], [])
  const ROOT := Node([], [Prop([0x61], [1, 2])], [CHILD])

  lemma Words()
    ensures Be32(0xD00DFEED) == [0xD0, 0x0D, 0xFE, 0xED]
    ensures Be32(0) == [0, 0, 0, 0] && Be32(1) == [0, 0, 0, 1] && Be32(2) == [0, 0, 0, 2] && Be32(3) == [0, 0, 0, 3]
    ensures Be32(9) == [0, 0, 0, 9] && Be32(0x0102_0304) == [1, 2, 3, 4]
  {
  }

  lemma Pieces()
    ensures NodeHead([]) == [0, 0, 0, 1, 0, 0, 0, 0]
    ensures NodeHead([0x62]) == [0, 0, 0, 1, 0x62, 0, 0, 0]
    ensures PropBytes(Prop([0x61], [1, 2]), 0) == [0, 0, 0, 3, 0, 0, 0, 2, 0, 0, 0, 0, 1, 2, 0, 0]
    ensures Padded(CName([0x61])) == [0x61, 0, 0, 0]
  {
    Words();
    hide Be32;
    assert Zeros(2) == [0, 0] && Zeros(3) == [0, 0, 0];
  }

  /** Tokens BEGIN_NODE 1, PROP 3, END_NODE 2, END 9; sections 5.4.1 and 5.4.2. */
  lemma Structure()
    ensures StringsOf(ROOT) == [0x61, 0, 0, 0]
    ensures StructBlock(ROOT) == [0, 0, 0, 1, 0, 0, 0, 0]
      + [0, 0, 0, 3, 0, 0, 0, 2, 0, 0, 0, 0, 1, 2, 0, 0]
      + [0, 0, 0, 1, 0x62, 0, 0, 0, 0, 0, 0, 2]
      + [0, 0, 0, 2] + [0, 0, 0, 9]
  {
    Words();
    Pieces();
    hide Be32, NodeHead, PropBytes, Padded, CName;
    assert NamesOf(ROOT.props) == [0x61, 0, 0, 0];
    assert StringsOf(CHILD) == [];
    assert KidsStrings(ROOT, 1) == [];
    assert KidsStrings(ROOT, 0) == [] + [] == [];
    assert StringsOf(ROOT) == NamesOf(ROOT.props) + KidsStrings(ROOT, 0);
    assert PropsOf(ROOT.props, 0) == [0, 0, 0, 3, 0, 0, 0, 2, 0, 0, 0, 0, 1, 2, 0, 0];
    assert StructOf(CHILD, 4) == [0, 0, 0, 1, 0x62, 0, 0, 0, 0, 0, 0, 2];
    assert KidsOf(ROOT, 1, 4) == [];
    assert KidsOf(ROOT, 0, 4) == StructOf(CHILD, 4);
    assert StructOf(ROOT, 0) == NodeHead([]) + PropsOf(ROOT.props, 0) + KidsOf(ROOT, 0, 4) + Be32(2);
  }

  /** Header words by section 5.2: magic, total size, offsets of structure, strings and reservations, versions 17 and
      16, boot CPU, sizes of strings and structure; then sixteen zeros that end the reservation list. */
  lemma HeaderBytes()
    ensures Front(44, 4, 0) == [0xD0, 0x0D, 0xFE, 0xED] + [0, 0, 0, 104] + [0, 0, 0, 56] + [0, 0, 0, 100]
      + [0, 0, 0, 40] + [0, 0, 0, 17] + [0, 0, 0, 16] + [0, 0, 0, 0] + [0, 0, 0, 4] + [0, 0, 0, 44] + seq(16, _ => 0)
  {
    Sizes();
    hide Be32;
  }

  lemma Sizes()
    ensures Be32(FDT_MAGIC) == [0xD0, 0x0D, 0xFE, 0xED] && Be32(0) == [0, 0, 0, 0] && Be32(4) == [0, 0, 0, 4]
    ensures Be32(16) == [0, 0, 0, 16] && Be32(17) == [0, 0, 0, 17] && Be32(40) == [0, 0, 0, 40]
    ensures Be32(44) == [0, 0, 0, 44] && Be32(56) == [0, 0, 0, 56] && Be32(100) == [0, 0, 0, 100]
    ensures Be32(104) == [0, 0, 0, 104]
  {
  }

  lemma Lengths()
    ensures Blob(ROOT, 0) == Front(44, 4, 0) + StructBlock(ROOT) + StringsOf(ROOT)
  {
    Structure();
    hide Front;
  }
}
