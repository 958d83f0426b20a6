/** What each ALU instruction computes, in bits and comparisons of its operands. */
module OpMeaning {
  import opened Powers
  import opened Words
  import opened WordBits
  import opened WordMeaning
  import opened Guest

  function Min(a: nat, b: nat): nat { if a < b then a else b }

  /** The sixty-four-bit shifts, by the low six bits of the second operand. */
  lemma ShiftsWide(a: Word, b: Word, k: nat)
    requires k < 64
    ensures
      var n := Number(b, 6);
      && n < 64
      && (Bit(Value(SLL, a, b), k) <==> n <= k && Bit(a, k - n))
      && (Bit(Value(SRL, a, b), k) <==> k + n < 64 && Bit(a, k + n))
      && (Bit(Value(SRA, a, b), k) <==> Bit(a, Min(k + n, 63)))
  {
    hide Bit, BitAnd, ImmWord, Shl, Shr, Sar, Number;
    MaskedCount(b, 6);
    var n := Number(b, 6);
    ShlBit(a, n, k);
    ShrBit(a, n, k);
    SarBit(a, n, k);
    if k + n >= 64 { NoBit(a, k + n); }
  }

  /** The shifts of the low half, by the low five bits; the result is sign-extended. */
  lemma ShiftsNarrow(a: Word, b: Word, k: nat)
    requires k < 64
    ensures
      var n, j := Number(b, 5), Min(k, 31);
      && n < 32
      && (Bit(Value(SLLW, a, b), k) <==> n <= j && Bit(a, j - n))
      && (Bit(Value(SRLW, a, b), k) <==> j + n < 32 && Bit(a, j + n))
      && (Bit(Value(SRAW, a, b), k) <==> Bit(a, Min(j + n, 31)))
  {
    hide Bit, BitAnd, ImmWord, Shl32, Shr32, Sar32, Sext32, Number;
    MaskedCount(b, 5);
    var n, j := Number(b, 5), Min(k, 31);
    SextBit(Shl32(a, ImmWord(n)), k);
    SextBit(Shr32(a, ImmWord(n)), k);
    SextBit(Sar32(a, ImmWord(n)), k);
    Shl32Bit(a, n, j);
    Shr32Bit(a, n, j);
    Sar32Bit(a, n, j);
  }

  /** The immediate shifts, by the immediate. */
  lemma ShiftsImmediate(a: Word, n: nat, k: nat)
    requires n < 64 && k < 64
    ensures Bit(Value(SLLI, a, ImmWord(n)), k) <==> n <= k && Bit(a, k - n)
    ensures Bit(Value(SRLI, a, ImmWord(n)), k) <==> k + n < 64 && Bit(a, k + n)
    ensures Bit(Value(SRAI, a, ImmWord(n)), k) <==> Bit(a, Min(k + n, 63))
  {
    hide Bit, ImmWord, Shl, Shr, Sar;
    ShlBit(a, n, k);
    ShrBit(a, n, k);
    SarBit(a, n, k);
    if k + n >= 64 { NoBit(a, k + n); }
  }

  lemma ShiftsImmediateNarrow(a: Word, n: nat, k: nat)
    requires n < 32 && k < 64
    ensures
      var j := Min(k, 31);
      && (Bit(Value(SLLIW, a, ImmWord(n)), k) <==> n <= j && Bit(a, j - n))
      && (Bit(Value(SRLIW, a, ImmWord(n)), k) <==> j + n < 32 && Bit(a, j + n))
      && (Bit(Value(SRAIW, a, ImmWord(n)), k) <==> Bit(a, Min(j + n, 31)))
  {
    hide Bit, ImmWord, Shl32, Shr32, Sar32, Sext32;
    var j := Min(k, 31);
    SextBit(Shl32(a, ImmWord(n)), k);
    SextBit(Shr32(a, ImmWord(n)), k);
    SextBit(Sar32(a, ImmWord(n)), k);
    Shl32Bit(a, n, j);
    Shr32Bit(a, n, j);
    Sar32Bit(a, n, j);
  }

  /** The bitwise instructions. */
  lemma Bitwise(a: Word, b: Word, k: nat)
    requires k < 64
    ensures Bit(Value(AND, a, b), k) <==> Bit(a, k) && Bit(b, k)
    ensures Bit(Value(OR, a, b), k) <==> Bit(a, k) || Bit(b, k)
    ensures Bit(Value(XOR, a, b), k) <==> Bit(a, k) != Bit(b, k)
    ensures Value(ANDI, a, b) == Value(AND, a, b) && Value(ORI, a, b) == Value(OR, a, b)
    ensures Value(XORI, a, b) == Value(XOR, a, b)
  {
    hide Bit, BitAnd, BitOr, BitXor, Plus, Minus, Plus32, Minus32, Sext32, Shl, Shr, Sar, SignedLess, Below;
    AndBit(a, b, k);
    OrBit(a, b, k);
    XorBit(a, b, k);
  }

  /** The comparisons give one or zero. Signed, a negative operand is below the others. */
  lemma Comparisons(a: Word, b: Word)
    ensures Value(SLTU, a, b) == if Below(a, b) then W(1) else W(0)
    ensures Value(SLT, a, b) == if (if Bit(a, 63) != Bit(b, 63) then Bit(a, 63) else Below(a, b)) then W(1) else W(0)
    ensures Value(SLTI, a, b) == Value(SLT, a, b) && Value(SLTIU, a, b) == Value(SLTU, a, b)
  {
    hide Bit, SignedLess, Below, Plus, Minus, Plus32, Minus32, Sext32, Shl, Shr, Sar, BitAnd, BitOr, BitXor;
    SignedLessIs(a, b);
  }

  /** Addition and subtraction modulo 2^64. */
  lemma Sums(a: Word, b: Word)
    ensures Value(ADD, a, b) == Value(ADDI, a, b) == W(Sum(a.bits, b.bits))
    ensures Value(SUB, a, b) == W(Difference(a.bits, b.bits))
  {
    hide Sum, Difference;
  }

  lemma SumIs(x: bv64, y: bv64)
    ensures Sum(x, y) == x + y && Difference(x, y) == x - y
  {
  }

  /** The W forms add and subtract the low halves modulo 2^32 and sign-extend. */
  lemma SumsNarrow(a: Word, b: Word, k: nat)
    requires k < 64
    ensures Value(ADDIW, a, b) == Value(ADDW, a, b)
    ensures Bit(Value(ADDW, a, b), k) <==> Bit(Wide(Sum32(LowHalf(a.bits), LowHalf(b.bits))), Min(k, 31))
    ensures Bit(Value(SUBW, a, b), k) <==> Bit(Wide(Difference32(LowHalf(a.bits), LowHalf(b.bits))), Min(k, 31))
  {
    hide Bit, Sum32, Difference32, LowHalf, Wide, Sext32;
    SextBit(Plus32(a, b), k);
    SextBit(Minus32(a, b), k);
  }

  lemma NarrowSumIs(x: bv32, y: bv32)
    ensures Sum32(x, y) == x + y && Difference32(x, y) == x - y
  {
  }
}
