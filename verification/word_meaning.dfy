/** What the shared word operations do, bit by bit and number by number. */
module WordMeaning {
  import opened Powers
  import opened Words
  import opened WordBits

  // ---- and, or ----

  lemma AndAssoc(a: Word, b: Word, p: Word)
    ensures BitAnd(BitAnd(a, b), p) == BitAnd(a, BitAnd(b, p))
  {
  }

  lemma AndOverOr(a: Word, b: Word, p: Word)
    ensures BitAnd(BitOr(a, b), p) == BitOr(BitAnd(a, p), BitAnd(b, p))
  {
  }

  lemma AndZero(p: Word)
    ensures BitAnd(p, ZERO) == ZERO
  {
  }

  lemma OrZero(p: Word)
    ensures BitOr(ZERO, p) == p && BitOr(p, ZERO) == p
  {
  }

  lemma OrSame(p: Word)
    ensures BitOr(p, p) == p
  {
  }

  lemma AndBit(a: Word, b: Word, k: nat)
    ensures Bit(BitAnd(a, b), k) <==> Bit(a, k) && Bit(b, k)
  {
    hide BitAnd, BitOr, One, Single;
    var p := W(One(k));
    OneSingle(k);
    AllOrNone(b, p);
    AndAssoc(a, b, p);
    AndZero(a);
  }

  lemma OrBit(a: Word, b: Word, k: nat)
    ensures Bit(BitOr(a, b), k) <==> Bit(a, k) || Bit(b, k)
  {
    hide BitAnd, BitOr, One, Single;
    var p := W(One(k));
    OneSingle(k);
    AllOrNone(a, p);
    AllOrNone(b, p);
    AndOverOr(a, b, p);
    OrZero(p);
    OrZero(ZERO);
    OrSame(p);
  }

  // ---- numbers as words ----

  lemma AppendBit(a: bv64, one: bool, k: nat)
    requires k < 64
    ensures Bit(W(Append(a, one)), k) <==> if k == 0 then one else Bit(W(a), k - 1)
  {
    hide Bit, Twice;
    AppendIs(a, one);
    OrBit(Twice(W(a)), ONE, k);
    TwiceBit(W(a), k);
    OneBit(k);
  }

  lemma AppendIs(a: bv64, one: bool)
    ensures W(Append(a, one)) == if one then BitOr(Twice(W(a)), ONE) else Twice(W(a))
  {
  }

  lemma OneBit(k: nat)
    requires k < 64
    ensures Bit(ONE, k) <==> k == 0
  {
    HalfOne();
    if k > 0 {
      HalfBit(ONE, k - 1);
      ZeroBit(k - 1);
    } else {
      LowestBit(ONE);
    }
    hide Bit;
  }

  lemma HalfOne()
    ensures Half(ONE) == ZERO && BitAnd(ONE, ONE) != ZERO
  {
  }

  lemma Halved(n: nat, k: nat)
    requires k > 0
    ensures n / Pow2(k) == (n / 2) / Pow2(k - 1)
  {
    var b := Pow2(k - 1);
    var s, t := (n / 2) / b, (n / 2) % b;
    DivMod(n / 2, b);
    assert (2 * b) * s == 2 * (b * s);
    assert n == (2 * b) * s + (2 * t + n % 2);
    QuotientIs(n, 2 * b, s, 2 * t + n % 2);
  }

  lemma DivMod(n: nat, d: nat)
    requires d > 0
    ensures n == d * (n / d) + n % d && n % d < d
  {
  }

  lemma QuotientIs(n: nat, d: nat, s: nat, r: nat)
    requires d > 0 && n == d * s + r && r < d
    ensures n / d == s
  {
    DivMod(n, d);
    var x: int := n / d - s;
    assert d * x == d * (n / d) - d * s;
    NoMultiple(d, x);
  }

  lemma NoMultiple(d: int, x: int)
    requires -d < d * x < d
    ensures x == 0
  {
    if x >= 1 { Grows(d, x); }
    if x <= -1 { Grows(d, -x); }
  }

  lemma Grows(d: int, x: int)
    requires x >= 1 && d >= 0
    ensures d * x >= d && d * -x == -(d * x)
  {
  }

  /** The word of a number below 2^64 has its binary digits. */
  lemma {:induction false} BitsBit(n: nat, k: nat)
    requires k < 64
    ensures Bit(W(Bits(n)), k) <==> n / Pow2(k) % 2 == 1
    decreases k
  {
    hide Bit, Append;
    if n == 0 {
      ZeroBit(k);
      ZeroOver(k);
    } else {
      AppendBit(Bits(n / 2), n % 2 == 1, k);
      if k > 0 {
        BitsBit(n / 2, k - 1);
        Halved(n, k);
      }
    }
  }

  lemma ZeroOver(k: nat)
    ensures 0 / Pow2(k) == 0
  {
  }

  /** The number the low `m` bits of a word spell. */
  function Number(b: Word, m: nat): (n: nat)
    ensures n < Pow2(m)
    decreases m
  {
    if m == 0 then 0 else (if Bit(b, 0) then 1 else 0) + 2 * Number(Half(b), m - 1)
  }

  lemma {:induction false} NumberBit(b: Word, m: nat, k: nat)
    ensures Number(b, m) / Pow2(k) % 2 == 1 <==> k < m && Bit(b, k)
    decreases m
  {
    hide Bit, Half;
    if m == 0 {
      ZeroOver(k);
    } else if k > 0 {
      NumberBit(Half(b), m - 1, k - 1);
      HalfBit(b, k - 1);
      Halved(Number(b, m), k);
    }
  }

  // ---- counting down ----

  lemma OddDown(b: bv64)
    ensures Append(b, true) != 0 && Append(b, true) - 1 == Append(b, false)
  {
  }

  lemma EvenDown(b: bv64)
    ensures Append(b, false) - 1 == Append(b - 1, true)
  {
  }

  lemma {:induction false} BitsDown(n: nat)
    requires 0 < n < 4096
    ensures Bits(n) != 0 && Bits(n) - 1 == Bits(n - 1)
  {
    BitsSome(n);
    hide Append;
    if n % 2 == 1 {
      OddDown(Bits(n / 2));
      assert n - 1 == 0 || (n - 1) / 2 == n / 2;
    } else {
      BitsDown(n / 2);
      EvenDown(Bits(n / 2));
      assert (n - 1) / 2 == n / 2 - 1;
    }
  }

  lemma BitsSome(n: nat)
    requires 0 < n < 4096
    ensures Bits(n) != 0
  {
    Small(n);
  }

  // ---- shifts ----

  lemma {:induction false} LeftIsUp(a: Word, n: nat)
    requires n < 64
    ensures ShiftLeft(a.bits, Bits(n)) == Up(a, n).bits
    decreases n
  {
    hide Bits, Doubled;
    if n == 0 {
      NoBits();
    } else {
      BitsDown(n);
      LeftIsUp(Twice(a), n - 1);
      UpTwice(a, n - 1);
    }
  }

  lemma NoBits()
    ensures Bits(0) == 0
  {
  }

  lemma {:induction false} UpTwice(a: Word, n: nat)
    ensures Up(Twice(a), n) == Up(a, n + 1)
  {
    hide Twice;
    if n > 0 { UpTwice(a, n - 1); }
  }

  /** SLL: bit `k` comes from `n` places below. */
  lemma ShlBit(a: Word, n: nat, k: nat)
    requires n < 64 && k < 64
    ensures Bit(Shl(a, ImmWord(n)), k) <==> n <= k && Bit(a, k - n)
  {
    hide Bit, Bits, ShiftLeft, Up;
    LeftIsUp(a, n);
    UpBit(a, n, k);
  }

  lemma FilledBit(a: bv64, fill: Word, k: nat)
    ensures Bit(W(Filled(a, fill.bits)), k) <==> Bit(W(a), k + 1) || Bit(fill, k)
  {
    assert W(Filled(a, fill.bits)) == BitOr(Half(W(a)), fill);
    hide Bit, Filled, Half, BitOr;
    OrBit(Half(W(a)), fill, k);
    HalfBit(W(a), k);
  }

  /** A word with at most its top bit. */
  ghost predicate TopOnly(fill: Word) { forall k: nat :: k < 63 ==> !Bit(fill, k) }

  function Drag(a: bv64, fill: bv64, n: nat): bv64
    decreases n
  {
    if n == 0 then a else Drag(Filled(a, fill), fill, n - 1)
  }

  lemma {:induction false} RightIsDrag(a: bv64, fill: bv64, n: nat)
    requires n < 64
    ensures ShiftRight(a, fill, Bits(n)) == Drag(a, fill, n)
    decreases n
  {
    hide Bits, Filled;
    if n == 0 {
      NoBits();
    } else {
      BitsDown(n);
      RightIsDrag(Filled(a, fill), fill, n - 1);
    }
  }

  lemma {:induction false} DragBit(a: bv64, fill: Word, n: nat, k: nat)
    requires n < 64 && k < 64 && TopOnly(fill) && (Bit(fill, 63) ==> Bit(W(a), 63))
    ensures Bit(W(Drag(a, fill.bits, n)), k) <==> if k + n < 64 then Bit(W(a), k + n) else Bit(fill, 63)
    decreases n
  {
    hide Bit, Filled;
    if n > 0 {
      NoBit(W(a), 64);
      FilledBit(a, fill, 63);
      DragBit(Filled(a, fill.bits), fill, n - 1, k);
      if k + n <= 64 { FilledBit(a, fill, k + n - 1); }
    }
  }

  lemma RightBit(a: bv64, fill: Word, n: nat, k: nat)
    requires n < 64 && k < 64 && TopOnly(fill) && (Bit(fill, 63) ==> Bit(W(a), 63))
    ensures Bit(W(ShiftRight(a, fill.bits, Bits(n))), k) <==> if k + n < 64 then Bit(W(a), k + n) else Bit(fill, 63)
  {
    hide Bit, Bits, ShiftRight, Drag;
    RightIsDrag(a, fill.bits, n);
    DragBit(a, fill, n, k);
  }

  /** SRL: from `n` places above, zeros coming in. */
  lemma ShrBit(a: Word, n: nat, k: nat)
    requires n < 64 && k < 64
    ensures Bit(Shr(a, ImmWord(n)), k) <==> Bit(a, k + n)
  {
    hide Bit, Bits, ShiftRight;
    forall j: nat ensures !Bit(ZERO, j) { ZeroBit(j); }
    RightBit(a.bits, ZERO, n, k);
    if k + n >= 64 { NoBit(a, k + n); }
  }

  lemma {:induction false} UpOne(n: nat)
    ensures Up(ONE, n) == W(One(n))
  {
    hide Twice, One;
    if n == 0 { OneFirst(); } else { UpOne(n - 1); OneNext(n - 1); }
  }

  lemma OneFirst()
    ensures One(0) == 1
  {
  }

  /** The one bit of a power of two. */
  lemma OneBits(j: nat, k: nat)
    requires j < 64 && k < 64
    ensures Bit(W(One(j)), k) <==> j == k
  {
    hide Bit, Up;
    UpOne(j);
    UpBit(ONE, j, k);
    if j <= k { OneBit(k - j); }
  }

  lemma TopAlone(k: nat)
    requires k < 64
    ensures Bit(W(0x8000_0000_0000_0000), k) <==> k == 63
  {
    hide Bit, Up;
    TopOne();
    UpOne(63);
    UpBit(ONE, 63, k);
    OneBit(0);
  }

  lemma SignIs(a: Word)
    ensures BitAnd(a, W(0x8000_0000_0000_0000)) == W(a.bits & 0x8000_0000_0000_0000)
  {
  }

  /** SRA: from `n` places above, copies of the sign bit coming in. */
  lemma SarBit(a: Word, n: nat, k: nat)
    requires n < 64 && k < 64
    ensures Bit(Sar(a, ImmWord(n)), k) <==> Bit(a, if k + n < 64 then k + n else 63)
  {
    hide Bit, Bits, ShiftRight, BitAnd;
    var fill := BitAnd(a, W(0x8000_0000_0000_0000));
    SignIs(a);
    forall j: nat | j < 64 ensures Bit(fill, j) <==> Bit(a, j) && j == 63 {
      AndBit(a, W(0x8000_0000_0000_0000), j);
      TopAlone(j);
    }
    RightBit(a.bits, fill, n, k);
  }

  // ---- 32-bit halves ----

  lemma LowMask(k: nat)
    requires k < 64
    ensures Bit(W(0xFFFF_FFFF), k) <==> k < 32
  {
    Ones();
    match k
    case 0 => case 1 => case 2 => case 3 => case 4 => case 5 => case 6 => case 7 =>
    case 8 => case 9 => case 10 => case 11 => case 12 => case 13 => case 14 => case 15 =>
    case 16 => case 17 => case 18 => case 19 => case 20 => case 21 => case 22 => case 23 =>
    case 24 => case 25 => case 26 => case 27 => case 28 => case 29 => case 30 => case 31 =>
    case 32 => case 33 => case 34 => case 35 => case 36 => case 37 => case 38 => case 39 =>
    case 40 => case 41 => case 42 => case 43 => case 44 => case 45 => case 46 => case 47 =>
    case 48 => case 49 => case 50 => case 51 => case 52 => case 53 => case 54 => case 55 =>
    case 56 => case 57 => case 58 => case 59 => case 60 => case 61 => case 62 => case 63 =>
  }

  lemma Ones()
    ensures One(8) == 0x100 && One(16) == 0x1_0000 && One(24) == 0x100_0000 && One(32) == 0x1_0000_0000
    ensures One(40) == 0x100_0000_0000 && One(48) == 0x1_0000_0000_0000 && One(56) == 0x100_0000_0000_0000
  {
  }

  /** The low half, and what fills the high one. */
  lemma LowIs(a: Word)
    ensures Wide(Low(a)) == BitAnd(a, W(0xFFFF_FFFF))
    ensures Low(a) & 0x8000_0000 != 0 <==> BitAnd(a, W(0x8000_0000)) != ZERO
  {
  }

  lemma SextIs(a: Word)
    ensures Sext32(a) == if BitAnd(a, W(0x8000_0000)) != ZERO then BitOr(BitAnd(a, W(0xFFFF_FFFF)), W(0xFFFF_FFFF_0000_0000))
      else BitAnd(a, W(0xFFFF_FFFF))
  {
  }

  lemma HighMask(k: nat)
    requires k < 64
    ensures Bit(W(0xFFFF_FFFF_0000_0000), k) <==> 32 <= k
  {
    Ones();
    match k
    case 0 => case 1 => case 2 => case 3 => case 4 => case 5 => case 6 => case 7 =>
    case 8 => case 9 => case 10 => case 11 => case 12 => case 13 => case 14 => case 15 =>
    case 16 => case 17 => case 18 => case 19 => case 20 => case 21 => case 22 => case 23 =>
    case 24 => case 25 => case 26 => case 27 => case 28 => case 29 => case 30 => case 31 =>
    case 32 => case 33 => case 34 => case 35 => case 36 => case 37 => case 38 => case 39 =>
    case 40 => case 41 => case 42 => case 43 => case 44 => case 45 => case 46 => case 47 =>
    case 48 => case 49 => case 50 => case 51 => case 52 => case 53 => case 54 => case 55 =>
    case 56 => case 57 => case 58 => case 59 => case 60 => case 61 => case 62 => case 63 =>
  }

  lemma One31()
    ensures One(31) == 0x8000_0000
  {
    Ones();
  }

  lemma LowBit(a: Word, k: nat)
    requires k < 64
    ensures Bit(Wide(Low(a)), k) <==> k < 32 && Bit(a, k)
  {
    LowIs(a);
    hide Bit, BitAnd, Low, Wide;
    LowMask(k);
    AndBit(a, W(0xFFFF_FFFF), k);
  }

  lemma SignBit(a: Word)
    ensures Bit(a, 31) <==> BitAnd(a, W(0x8000_0000)) != ZERO
  {
    hide BitAnd, One;
    One31();
  }

  /** The sign of the low half fills the high one. */
  lemma SextBit(a: Word, k: nat)
    requires k < 64
    ensures Bit(Sext32(a), k) <==> Bit(a, if k < 32 then k else 31)
  {
    SextIs(a);
    SignBit(a);
    hide Bit, BitAnd, BitOr, Sext32;
    LowMask(k);
    HighMask(k);
    AndBit(a, W(0xFFFF_FFFF), k);
    OrBit(BitAnd(a, W(0xFFFF_FFFF)), W(0xFFFF_FFFF_0000_0000), k);
  }

  lemma Shl32Bit(a: Word, n: nat, k: nat)
    requires n < 32 && k < 64
    ensures Bit(Shl32(a, ImmWord(n)), k) <==> k < 32 && n <= k && Bit(a, k - n)
  {
    hide Bit, Low, Wide, Shl, ImmWord;
    LowBit(Shl(a, ImmWord(n)), k);
    ShlBit(a, n, k);
  }

  lemma Shr32Bit(a: Word, n: nat, k: nat)
    requires n < 32 && k < 64
    ensures Bit(Shr32(a, ImmWord(n)), k) <==> k + n < 32 && Bit(a, k + n)
  {
    hide Bit, Low, Wide, Shr, ImmWord;
    ShrBit(Wide(Low(a)), n, k);
    if k + n < 64 { LowBit(a, k + n); } else { NoBit(Wide(Low(a)), k + n); }
  }

  lemma Sar32Bit(a: Word, n: nat, k: nat)
    requires n < 32 && k < 64
    ensures Bit(Sar32(a, ImmWord(n)), k) <==> k < 32 && Bit(a, if k + n < 32 then k + n else 31)
  {
    hide Bit, Low, Wide, Sar, Sext32, ImmWord;
    LowBit(Sar(Sext32(a), ImmWord(n)), k);
    SarBit(Sext32(a), n, k);
    SextBit(a, if k + n < 64 then k + n else 63);
  }

  /** The low `m` bits of a word as a count. */
  lemma MaskedCount(b: Word, m: nat)
    requires m == 5 || m == 6
    ensures BitAnd(b, if m == 6 then W(63) else W(31)) == ImmWord(Number(b, m))
    ensures Number(b, m) < if m == 6 then 64 else 32
  {
    hide Bit, BitAnd, Number, Bits;
    var mask := if m == 6 then W(63) else W(31);
    assert Pow2(5) == 32 && Pow2(6) == 64;
    forall k: nat | k < 64 ensures Bit(BitAnd(b, mask), k) <==> Bit(ImmWord(Number(b, m)), k) {
      AndBit(b, mask, k);
      CountMask(k);
      NumberBit(b, m, k);
      BitsBit(Number(b, m), k);
    }
    SameBits(BitAnd(b, mask), ImmWord(Number(b, m)));
  }

  lemma CountMask(k: nat)
    requires k < 64
    ensures Bit(W(63), k) <==> k < 6
    ensures Bit(W(31), k) <==> k < 5
  {
    Ones();
    match k
    case 0 => case 1 => case 2 => case 3 => case 4 => case 5 => case 6 => case 7 =>
    case 8 => case 9 => case 10 => case 11 => case 12 => case 13 => case 14 => case 15 =>
    case 16 => case 17 => case 18 => case 19 => case 20 => case 21 => case 22 => case 23 =>
    case 24 => case 25 => case 26 => case 27 => case 28 => case 29 => case 30 => case 31 =>
    case 32 => case 33 => case 34 => case 35 => case 36 => case 37 => case 38 => case 39 =>
    case 40 => case 41 => case 42 => case 43 => case 44 => case 45 => case 46 => case 47 =>
    case 48 => case 49 => case 50 => case 51 => case 52 => case 53 => case 54 => case 55 =>
    case 56 => case 57 => case 58 => case 59 => case 60 => case 61 => case 62 => case 63 =>
  }

  // ---- comparisons and immediates ----

  /** Signed comparison: the negative one is less; of two of one sign, the lesser as numbers. */
  lemma SignedLessIs(a: Word, b: Word)
    ensures SignedLess(a, b) <==> if Bit(a, 63) != Bit(b, 63) then Bit(a, 63) else Below(a, b)
  {
    TopOne();
    SignSplit(a.bits, b.bits);
  }

  lemma SignSplit(a: bv64, b: bv64)
    ensures (a ^ 0x8000_0000_0000_0000) < (b ^ 0x8000_0000_0000_0000) <==>
      if (a & 0x8000_0000_0000_0000 != 0) != (b & 0x8000_0000_0000_0000 != 0) then a & 0x8000_0000_0000_0000 != 0 else a < b
  {
  }

  lemma NotIs(a: Word)
    ensures Not(a) == BitXor(a, BitOr(W(0xFFFF_FFFF), W(0xFFFF_FFFF_0000_0000)))
  {
  }

  lemma NotBit(a: Word, k: nat)
    requires k < 64
    ensures Bit(Not(a), k) <==> !Bit(a, k)
  {
    hide Bit, BitOr, BitXor, Not;
    NotIs(a);
    XorBit(a, BitOr(W(0xFFFF_FFFF), W(0xFFFF_FFFF_0000_0000)), k);
    OrBit(W(0xFFFF_FFFF), W(0xFFFF_FFFF_0000_0000), k);
    LowMask(k);
    HighMask(k);
  }

  lemma Negated(x: bv64)
    ensures W(Difference(0, x)) == Not(W(Difference(x, 1)))
  {
  }

  lemma BitsPrevious(n: nat)
    requires 0 < n < 4096
    ensures Difference(Bits(n), 1) == Bits(n - 1)
  {
    hide Bits;
    BitsDown(n);
  }

  lemma FloorNegative(m: int, d: int)
    requires m > 0 && d > 0
    ensures -m / d == -((m - 1) / d) - 1
  {
    var q, r := (m - 1) / d, (m - 1) % d;
    DivMod(m - 1, d);
    var s: int := -m / d;
    assert -m == d * s + -m % d;
    assert d * (s + q + 1) == d * s + d * q + d;
    NoMultiple(d, s + q + 1);
  }

  /** An immediate is its two's complement: bit `k` is the parity of the immediate over 2^k, rounded down. */
  lemma ImmBit(imm: int, k: nat)
    requires -4096 < imm < 4096 && k < 64
    ensures Bit(ImmWord(imm), k) <==> imm / Pow2(k) % 2 == 1
  {
    hide Bit, Bits, Not, Difference;
    if imm >= 0 {
      BitsBit(imm, k);
    } else {
      BitsPrevious(-imm);
      Negated(Bits(-imm));
      NotBit(W(Bits(-imm - 1)), k);
      BitsBit(-imm - 1, k);
      FloorNegative(-imm, Pow2(k));
    }
  }
}
