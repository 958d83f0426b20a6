/** The encoder against instruction bytes as the processor manual lists them: one instruction of every form, with
    registers from both halves of the register file, short and long displacements and the extra byte that some bases need. */
module EncodeVectors {
  import opened Wrappers
  import opened Host
  import opened Encode

  lemma Stack()
    ensures Bytes(Push(R12)) == [0x41, 0x54] && Bytes(Pop(RBX)) == [0x5B]
    ensures Bytes(Ret) == [0xC3] && Bytes(Call(RAX)) == [0x48, 0xFF, 0xD0]
  {
  }

  lemma Move()
    ensures Bytes(MovRR(RCX, R8)) == [0x4C, 0x89, 0xC1]
  {
  }

  lemma SignExtend()
    ensures Bytes(Movsxd(RAX, RDX)) == [0x48, 0x63, 0xC2]
  {
  }

  lemma ByteExtend()
    ensures Bytes(Movzx8(RDI, R8)) == [0x49, 0x0F, 0xB6, 0xF8]
  {
  }

  lemma Jumps()
    ensures Bytes(Jbe8(5)) == [0x76, 0x05] && Bytes(Jmp8(-2)) == [0xEB, 0xFE]
  {
  }

  lemma Immediate()
    ensures Bytes(MovImm32(RAX, 1)) == [0x48, 0xC7, 0xC0, 0x01, 0x00, 0x00, 0x00]
  {
  }

  lemma AddBytes()
    ensures Bytes(AluRR(Add, true, RAX, RDX)) == [0x48, 0x01, 0xD0]
  {
  }

  lemma SubBytes()
    ensures Bytes(AluRR(Sub, false, R9, RSI)) == [0x41, 0x29, 0xF1]
  {
  }

  lemma XorBytes()
    ensures Bytes(AluRR(Xor, true, RDI, RDI)) == [0x48, 0x31, 0xFF]
  {
  }

  lemma OrBytes()
    ensures Bytes(AluRR(Or, true, RSI, R10)) == [0x4C, 0x09, 0xD6]
  {
  }

  lemma AndBytes()
    ensures Bytes(AluRR(And, true, R11, RAX)) == [0x49, 0x21, 0xC3]
  {
  }

  lemma AddImmediate()
    ensures Bytes(AluImm(Add, true, RCX, -1)) == [0x48, 0x81, 0xC1, 0xFF, 0xFF, 0xFF, 0xFF]
  {
  }

  lemma SubImmediate()
    ensures Bytes(AluImm(Sub, true, R8, 0x4000_0000)) == [0x49, 0x81, 0xE8, 0x00, 0x00, 0x00, 0x40]
  {
  }

  lemma XorImmediate()
    ensures Bytes(AluImm(Xor, true, RDX, 5)) == [0x48, 0x81, 0xF2, 0x05, 0x00, 0x00, 0x00]
  {
  }

  lemma OrImmediate()
    ensures Bytes(AluImm(Or, true, RAX, 5)) == [0x48, 0x81, 0xC8, 0x05, 0x00, 0x00, 0x00]
  {
  }

  lemma AndImmediate()
    ensures Bytes(AluImm(And, true, RAX, 5)) == [0x48, 0x81, 0xE0, 0x05, 0x00, 0x00, 0x00]
  {
  }

  lemma ShiftLeft()
    ensures Bytes(ShiftCl(ShlOp, true, RDX)) == [0x48, 0xD3, 0xE2]
  {
  }

  lemma ShiftRight()
    ensures Bytes(ShiftCl(ShrOp, false, R10)) == [0x41, 0xD3, 0xEA]
  {
  }

  lemma ShiftSigned()
    ensures Bytes(ShiftImm(SarOp, false, RSI, 3)) == [0x40, 0xC1, 0xFE, 0x03]
  {
  }

  lemma Compare()
    ensures Bytes(Cmp(RAX, R11)) == [0x4C, 0x39, 0xD8]
  {
  }

  lemma SetLess()
    ensures Bytes(Setl(RAX)) == [0x0F, 0x9C, 0xC0]
  {
  }

  lemma SetBelow()
    ensures Bytes(Setb(RDI)) == [0x40, 0x0F, 0x92, 0xC7]
  {
  }

  lemma ShortDisplacement()
    ensures Bytes(Load(RAX, Mem(R13, None, 0, 8))) == [0x49, 0x8B, 0x45, 0x08]
  {
  }

  lemma LongDisplacement()
    ensures Bytes(Store(8, RDX, Mem(R13, None, 0, 0x100))) == [0x49, 0x89, 0x95, 0x00, 0x01, 0x00, 0x00]
  {
  }

  lemma ScaledBase()
    ensures Bytes(CmpMem(RCX, Mem(R12, None, 0, 16))) == [0x49, 0x3B, 0x4C, 0x24, 0x10]
  {
  }

  /** MOV r64, imm64: two bytes, then the immediate, lowest byte first. */
  lemma WideImmediate(imm: int)
    requires Encodable(MovImm64(R9, imm))
    ensures Bytes(MovImm64(R9, imm)) == [0x49, 0xB9] + Le(imm, 8)
    ensures Le(imm, 8)[0] == imm % 0x100 && Le(imm, 8)[1] == imm / 0x100 % 0x100
  {
    hide Le;
    LeStep(imm, 8);
    LeStep(imm / 0x100, 7);
  }

  lemma LeStep(v: int, n: nat)
    requires n > 0
    ensures Le(v, n) == [v % 0x100] + Le(v / 0x100, n - 1)
  {
  }

  /** A register stored through the index RCX from the base R14, in its four widths. */
  lemma IndexedStores()
    ensures Bytes(Store(1, RSI, Mem(R14, Some(RCX), 0, 0))) == [0x41, 0x88, 0x34, 0x0E]
    ensures Bytes(Store(2, RSI, Mem(R14, Some(RCX), 0, 0))) == [0x66, 0x41, 0x89, 0x34, 0x0E]
    ensures Bytes(Store(4, RSI, Mem(R14, Some(RCX), 0, 0))) == [0x41, 0x89, 0x34, 0x0E]
    ensures Bytes(Store(8, RSI, Mem(R14, Some(RCX), 0, 0))) == [0x49, 0x89, 0x34, 0x0E]
  {
    hide MemBytes;
    IndexedOperand();
  }

  lemma IndexedOperand()
    ensures MemBytes(6, Mem(R14, Some(RCX), 0, 0)) == [0x34, 0x0E]
  {
    hide ModRm;
    FieldBytes();
    PlainIndex();
  }

  lemma FieldBytes()
    ensures ModRm(0, 6, 4) == 0x34 && ModRm(0, 1, 14) == 0x0E
  {
  }

  lemma PlainIndex()
    ensures MemBytes(6, Mem(R14, Some(RCX), 0, 0)) == [ModRm(0, 6, 4)] + [ModRm(0, 1, 14)]
  {
    hide ModRm, Le;
    var a := Mem(R14, Some(RCX), 0, 0);
    assert DispBytes(a) == [];
    assert MemBytes(6, a) == [ModRm(0, 6, 4)] + [ModRm(0, 1, 14)] + [];
  }
}
