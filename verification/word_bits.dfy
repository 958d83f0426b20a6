/** Single bits of 64-bit words, and how the operations act on them. */
module WordBits {
  import opened Words

  function Twice(a: Word): Word { W(Doubled(a.bits)) }

  predicate Single(p: Word) { p == ZERO || BitAnd(p, W(p.bits - 1)) == ZERO }

  lemma TwiceSingle(p: Word)
    requires Single(p)
    ensures Single(Twice(p))
  {
  }

  lemma {:induction false} OneSingle(k: nat)
    ensures Single(W(One(k)))
  {
    hide Single;
    if k == 0 { SingleOne(); } else { OneSingle(k - 1); TwiceSingle(W(One(k - 1))); }
  }

  lemma SingleOne()
    ensures Single(W(One(0)))
  {
  }

  lemma AllOrNone(a: Word, p: Word)
    requires Single(p)
    ensures BitAnd(a, p) == ZERO || BitAnd(a, p) == p
  {
  }

  lemma {:induction false} PastTop(k: nat)
    requires k >= 64
    ensures One(k) == 0
    decreases k
  {
    if k == 64 { TopOne(); } else { PastTop(k - 1); }
  }

  lemma TopOne()
    ensures One(63) == 0x8000_0000_0000_0000 && One(64) == 0
  {
    assert One(8) == 0x100;
    assert One(16) == 0x1_0000;
    assert One(24) == 0x100_0000;
    assert One(32) == 0x1_0000_0000;
    assert One(40) == 0x100_0000_0000;
    assert One(48) == 0x1_0000_0000_0000;
    assert One(56) == 0x100_0000_0000_0000;
  }

  lemma {:induction false} OneNonzero(k: nat)
    requires k < 64
    ensures One(k) != 0
    decreases 63 - k
  {
    if k == 63 { TopOne(); } else { OneNonzero(k + 1); }
  }

  lemma OneNext(k: nat)
    ensures W(One(k + 1)) == Twice(W(One(k)))
  {
  }

  /** Bit `k`; false from 64 on, where `One` has been shifted out. */
  predicate Bit(a: Word, k: nat) { BitAnd(a, W(One(k))) != ZERO }

  function Not(a: Word): Word { W(!a.bits) }

  function Half(a: Word): Word { W(a.bits >> 1) }

  /** `a << n` */
  function Up(a: Word, n: nat): Word { if n == 0 then a else Twice(Up(a, n - 1)) }

  /** `a >> n` */
  function Down(a: Word, n: nat): Word { if n == 0 then a else Half(Down(a, n - 1)) }

  lemma NoBit(a: Word, k: nat)
    requires k >= 64
    ensures !Bit(a, k)
  {
    PastTop(k);
  }

  // ---- how the operations act on bits ----

  lemma XorMeets(a: Word, b: Word, p: Word)
    ensures BitAnd(BitXor(a, b), p) == BitXor(BitAnd(a, p), BitAnd(b, p))
  {
  }

  lemma XorSelf(p: Word)
    ensures BitXor(p, p) == ZERO
  {
  }

  lemma XorNone(p: Word)
    ensures BitXor(p, ZERO) == p && BitXor(ZERO, p) == p
  {
  }

  lemma XorBit(a: Word, b: Word, k: nat)
    ensures Bit(BitXor(a, b), k) <==> Bit(a, k) != Bit(b, k)
  {
    hide BitAnd, BitXor, One, Single;
    var p := W(One(k));
    OneSingle(k);
    AllOrNone(a, p);
    AllOrNone(b, p);
    XorMeets(a, b, p);
    XorSelf(p);
    XorNone(p);
    XorNone(ZERO);
  }

  lemma HalfMeets(a: Word, p: Word)
    ensures BitAnd(Half(a), p) != ZERO <==> BitAnd(a, Twice(p)) != ZERO
  {
  }

  lemma HalfBit(a: Word, k: nat)
    ensures Bit(Half(a), k) <==> Bit(a, k + 1)
  {
    hide BitAnd, Half, Twice;
    OneNext(k);
    HalfMeets(a, W(One(k)));
  }

  lemma {:induction false} DownBit(a: Word, n: nat, k: nat)
    ensures Bit(Down(a, n), k) <==> Bit(a, k + n)
    decreases n
  {
    hide Bit, Half;
    if n > 0 {
      HalfBit(Down(a, n - 1), k);
      DownBit(a, n - 1, k + 1);
    }
  }

  lemma TwiceMeets(a: Word, p: Word)
    requires Single(p) && Twice(p) != ZERO
    ensures BitAnd(Twice(a), Twice(p)) != ZERO <==> BitAnd(a, p) != ZERO
  {
    AllOrNone(a, p);
    TwiceAnd(a, p);
    hide BitAnd, Twice, Single;
    TwiceZero();
  }

  lemma TwiceAnd(a: Word, p: Word)
    ensures BitAnd(Twice(a), Twice(p)) == Twice(BitAnd(a, p))
  {
  }

  lemma TwiceZero()
    ensures Twice(ZERO) == ZERO
  {
  }

  lemma TwiceBit(a: Word, k: nat)
    requires k < 64
    ensures Bit(Twice(a), k) <==> k > 0 && Bit(a, k - 1)
  {
    hide BitAnd, Twice, Single;
    if k == 0 {
      TwiceEven(a);
    } else {
      OneSingle(k - 1);
      OneNonzero(k);
      OneNext(k - 1);
      TwiceMeets(a, W(One(k - 1)));
    }
  }

  lemma TwiceEven(a: Word)
    ensures BitAnd(Twice(a), W(One(0))) == ZERO
  {
  }

  lemma {:induction false} UpBit(a: Word, n: nat, k: nat)
    requires k < 64
    ensures Bit(Up(a, n), k) <==> n <= k && Bit(a, k - n)
    decreases n
  {
    hide Bit, Twice;
    if n > 0 {
      TwiceBit(Up(a, n - 1), k);
      if k > 0 { UpBit(a, n - 1, k - 1); }
    }
  }

  lemma ZeroBit(k: nat)
    ensures !Bit(ZERO, k)
  {
  }

  lemma HalvesDecide(a: Word, b: Word)
    requires Half(a) == Half(b) && (BitAnd(a, ONE) == ZERO <==> BitAnd(b, ONE) == ZERO)
    ensures a == b
  {
  }

  lemma HalfLess(a: Word)
    requires a != ZERO
    ensures Half(a).bits < a.bits
  {
  }

  lemma HalvesAgree(a: Word, b: Word)
    requires forall k: nat :: k < 64 ==> (Bit(a, k) <==> Bit(b, k))
    ensures forall k: nat :: k < 64 ==> (Bit(Half(a), k) <==> Bit(Half(b), k))
  {
    hide Half, Bit;
    forall k: nat | k < 64 ensures Bit(Half(a), k) <==> Bit(Half(b), k) {
      HalfBit(a, k);
      HalfBit(b, k);
      NoBit(a, 64);
      NoBit(b, 64);
    }
  }

  /** How often a word can be halved before it is zero. */
  function Halvings(a: Word): nat
    decreases a.bits
  {
    if a == ZERO then 0 else HalfLess(a); 1 + Halvings(Half(a))
  }

  /** Words with the same bits are the same word. */
  lemma {:induction false} SameBits(a: Word, b: Word)
    requires forall k: nat :: k < 64 ==> (Bit(a, k) <==> Bit(b, k))
    ensures a == b
    decreases Halvings(a) + Halvings(b)
  {
    hide Half, BitAnd, Bit;
    if a != ZERO || b != ZERO {
      HalvesAgree(a, b);
      LowestBit(a);
      LowestBit(b);
      HalfZero();
      SameBits(Half(a), Half(b));
      assert Bit(a, 0) <==> Bit(b, 0);
      HalvesDecide(a, b);
    }
  }

  lemma HalfZero()
    ensures Half(ZERO) == ZERO
  {
  }

  lemma LowestBit(a: Word)
    ensures Bit(a, 0) <==> BitAnd(a, ONE) != ZERO
  {
  }
}
