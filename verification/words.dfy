/** 64-bit guest and host words, and the arithmetic both machines share. */
module Words {
  import opened Powers

  datatype Word = W(bits: bv64)

  function Sum(a: bv64, b: bv64): bv64 { a + b }

  function Plus(a: Word, b: Word): Word { W(Sum(a.bits, b.bits)) }

  function Difference(a: bv64, b: bv64): bv64 { a - b }

  function Minus(a: Word, b: Word): Word { W(Difference(a.bits, b.bits)) }

  function BitXor(a: Word, b: Word): Word { W(a.bits ^ b.bits) }

  function BitOr(a: Word, b: Word): Word { W(a.bits | b.bits) }

  function BitAnd(a: Word, b: Word): Word { W(a.bits & b.bits) }

  /** `(int64_t)a < (int64_t)b` */
  predicate SignedLess(a: Word, b: Word) {
    (a.bits ^ 0x8000_0000_0000_0000) < (b.bits ^ 0x8000_0000_0000_0000)
  }

  predicate Below(a: Word, b: Word) { a.bits < b.bits }

  // 32-bit operations take the low halves and clear the upper half of their result.

  function LowHalf(a: bv64): bv32 { (a & 0xFFFF_FFFF) as bv32 }

  function Low(a: Word): bv32 { LowHalf(a.bits) }

  function Wide(a: bv32): Word { W(a as bv64) }

  function Sum32(a: bv32, b: bv32): bv32 { a + b }

  function Difference32(a: bv32, b: bv32): bv32 { a - b }

  function Plus32(a: Word, b: Word): Word { Wide(Sum32(Low(a), Low(b))) }

  function Minus32(a: Word, b: Word): Word { Wide(Difference32(Low(a), Low(b))) }

  /** `(int64_t)(int32_t)a`, which is also MOVSXD. */
  function Sext32(a: Word): Word {
    if Low(a) & 0x8000_0000 != 0 then W((Low(a) as bv64) | 0xFFFF_FFFF_0000_0000) else Wide(Low(a))
  }

  // Shifts, one place at a time. A count of the operand's width or more is undefined in C++; no
  // decoded instruction has one.

  function Doubled(a: bv64): bv64 { a << 1 }

  function ShiftLeft(a: bv64, n: bv64): bv64
    decreases n
  {
    if n == 0 then a else ShiftLeft(Doubled(a), n - 1)
  }

  function Filled(a: bv64, fill: bv64): bv64 { (a >> 1) | fill }

  /** Shifts right, filling with the bits of `fill`: 0, or the operand's sign bit. */
  function ShiftRight(a: bv64, fill: bv64, n: bv64): bv64
    decreases n
  {
    if n == 0 then a else ShiftRight(Filled(a, fill), fill, n - 1)
  }

  function Shl(a: Word, n: Word): Word { W(ShiftLeft(a.bits, n.bits)) }

  function Shr(a: Word, n: Word): Word { W(ShiftRight(a.bits, 0, n.bits)) }

  function Sar(a: Word, n: Word): Word { W(ShiftRight(a.bits, a.bits & 0x8000_0000_0000_0000, n.bits)) }

  function Shl32(a: Word, n: Word): Word { Wide(Low(Shl(a, n))) }

  function Shr32(a: Word, n: Word): Word { Shr(Wide(Low(a)), n) }

  function Sar32(a: Word, n: Word): Word { Wide(Low(Sar(Sext32(a), n))) }

  const ZERO := W(0)
  const ONE := W(1)

  function Truth(c: bool): Word { if c then ONE else ZERO }

  /** One more binary digit at the low end. */
  function Append(a: bv64, one: bool): bv64 { if one then (a << 1) | 1 else a << 1 }

  /** The binary expansion of `n`, modulo 2^64. */
  function Bits(n: nat): bv64 {
    if n == 0 then 0 else Append(Bits(n / 2), n % 2 == 1)
  }

  /** The two's complement pattern of a signed immediate. */
  function ImmWord(imm: int): Word {
    if imm >= 0 then W(Bits(imm)) else W(Difference(0, Bits(-imm)))
  }

  function One(k: nat): bv64 { if k == 0 then 1 else Append(One(k - 1), false) }

  predicate Under(a: bv64, b: bv64) { a < b <= 4096 }

  lemma {:induction false} BitsUnder(n: nat, k: nat)
    requires n < Pow2(k) && k <= 12
    ensures Under(Bits(n), One(k)) && (Bits(n) == 0 <==> n == 0)
  {
    hide Append, Under;
    if k == 0 {
      ZeroUnder();
    } else {
      BitsUnder(n / 2, k - 1);
      OneBound(k);
      AppendUnder(Bits(n / 2), One(k - 1), n % 2 == 1);
      AppendZero(Bits(n / 2), One(k - 1), n % 2 == 1);
    }
  }

  lemma ZeroUnder()
    ensures Under(0, 1)
  {
  }

  lemma {:induction false} OneBound(k: nat)
    requires k <= 12
    ensures One(k) <= 4096 && One(12) == 4096
  {
    assert One(12) == 4096 && One(11) == 2048 && One(10) == 1024 && One(9) == 512 && One(8) == 256;
    assert One(7) == 128 && One(6) == 64 && One(5) == 32 && One(4) == 16 && One(3) == 8;
  }

  lemma AppendUnder(a: bv64, b: bv64, one: bool)
    requires Under(a, b) && Append(b, false) <= 4096
    ensures Under(Append(a, one), Append(b, false))
  {
  }

  lemma AppendZero(a: bv64, b: bv64, one: bool)
    requires Under(a, b)
    ensures Append(a, one) == 0 <==> a == 0 && !one
  {
  }

  lemma Small(n: nat)
    requires n < 4096
    ensures ImmWord(n).bits < 4096 && (ImmWord(n) == ZERO <==> n == 0)
  {
    assert Pow2(12) == 4096;
    OneBound(12);
    BitsUnder(n, 12);
  }

  lemma {:induction false} BitsPow2(k: nat)
    ensures Bits(Pow2(k)) == One(k)
  {
    if k > 0 {
      BitsPow2(k - 1);
      assert Pow2(k) / 2 == Pow2(k - 1);
    }
  }

  lemma HalfGigabyte()
    ensures ImmWord(0x4000_0000) == W(0x4000_0000)
  {
    BitsPow2(30);
    assert Pow2(10) == 1024 && Pow2(20) == 0x10_0000 && Pow2(30) == 0x4000_0000;
    assert One(10) == 1024 && One(20) == 0x10_0000 && One(30) == 0x4000_0000;
  }
}
