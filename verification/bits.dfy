/** Sets of bits in a 32-bit word, taken apart by clearing the lowest one. */
module Bits {
  import opened Powers

  datatype Word32 = W(bits: bv32)

  const ZERO := W(0)

  function And(x: Word32, y: Word32): Word32 { W(x.bits & y.bits) }

  function Or(x: Word32, y: Word32): Word32 { W(x.bits | y.bits) }

  function Not(x: Word32): Word32 { W(!x.bits) }

  function Successor(a: bv32): bv32 { a + 1 }

  function Difference(a: bv32, b: bv32): bv32 { a - b }

  function Increment(x: Word32): Word32 { W(Successor(x.bits)) }

  /** `x - y`, wrapping at 32 bits. */
  function Minus(x: Word32, y: Word32): Word32 { W(Difference(x.bits, y.bits)) }

  /** Every bit of `s` is a bit of `d`. */
  predicate Within(s: Word32, d: Word32) { And(s, d) == s }

  /** `d & (d - 1)` */
  function ClearLow(d: Word32): Word32 { W(d.bits & (d.bits - 1)) }

  /** `d & -d` */
  function LowBit(d: Word32): Word32 { W(d.bits & (0 - d.bits)) }

  lemma ClearLess(d: Word32)
    requires d != ZERO
    ensures ClearLow(d).bits < d.bits
  {
  }

  lemma LowNonzero(d: Word32)
    requires d != ZERO
    ensures LowBit(d) != ZERO
  {
  }

  lemma LowJoins(d: Word32)
    ensures Or(LowBit(d), ClearLow(d)) == d
  {
  }

  lemma LowApart(d: Word32)
    ensures And(LowBit(d), ClearLow(d)) == ZERO
  {
  }

  lemma LowAllOrNone(x: Word32, d: Word32)
    ensures And(x, LowBit(d)) == ZERO || And(x, LowBit(d)) == LowBit(d)
  {
  }

  lemma AndOr(x: Word32, a: Word32, b: Word32)
    ensures And(x, Or(a, b)) == Or(And(x, a), And(x, b))
  {
  }

  lemma OrAnd(a: Word32, b: Word32, x: Word32)
    ensures And(Or(a, b), x) == Or(And(a, x), And(b, x))
  {
  }

  lemma OrAbsorbs(a: Word32, b: Word32)
    ensures And(Or(a, b), a) == a && And(Or(a, b), b) == b
  {
  }

  lemma OrZero(x: Word32)
    ensures Or(x, ZERO) == x && Or(ZERO, x) == x && And(x, ZERO) == ZERO && And(ZERO, x) == ZERO && And(x, x) == x
  {
  }

  lemma AndLaws(x: Word32, y: Word32, z: Word32)
    ensures And(x, y) == And(y, x) && And(And(x, y), z) == And(x, And(y, z))
  {
  }

  lemma LowWithin(d: Word32)
    ensures And(d, LowBit(d)) == LowBit(d)
  {
    var other := W(0 - d.bits);
    OrZero(d);
    AndLaws(d, d, other);
    assert LowBit(d) == And(d, other);
    hide And, LowBit;
  }

  lemma ClearWithin(d: Word32)
    ensures And(d, ClearLow(d)) == ClearLow(d)
  {
    var other := W(d.bits - 1);
    OrZero(d);
    AndLaws(d, d, other);
    assert ClearLow(d) == And(d, other);
    hide And, ClearLow;
  }

  /** `__builtin_popcount` */
  function Pop(d: Word32): nat
    decreases d.bits
  {
    if d == ZERO then 0 else ClearLess(d); 1 + Pop(ClearLow(d))
  }

  /** `_pext_u32`: the bits of `x` at the positions of `d`, packed, lowest position first. */
  function Pext(x: Word32, d: Word32): nat
    decreases d.bits
  {
    if d == ZERO then 0
    else ClearLess(d); (if And(x, LowBit(d)) != ZERO then 1 else 0) + 2 * Pext(x, ClearLow(d))
  }

  lemma {:induction false} PextBound(x: Word32, d: Word32)
    ensures Pext(x, d) < Pow2(Pop(d))
    decreases d.bits
  {
    hide And, LowBit, ClearLow;
    if d != ZERO { ClearLess(d); PextBound(x, ClearLow(d)); }
  }

  lemma {:induction false} PextZero(d: Word32)
    ensures Pext(ZERO, d) == 0
    decreases d.bits
  {
    hide And, LowBit, ClearLow;
    if d != ZERO { ClearLess(d); PextZero(ClearLow(d)); OrZero(LowBit(d)); }
  }

  lemma MaskSplits(x: Word32, y: Word32, d: Word32)
    requires d != ZERO
    ensures And(x, d) == And(y, d) <==>
      (And(x, LowBit(d)) != ZERO <==> And(y, LowBit(d)) != ZERO) && And(x, ClearLow(d)) == And(y, ClearLow(d))
  {
    hide And, Or, LowBit, ClearLow;
    LowAllOrNone(x, d);
    LowAllOrNone(y, d);
    LowNonzero(d);
    LowJoins(d);
    AndOr(x, LowBit(d), ClearLow(d));
    AndOr(y, LowBit(d), ClearLow(d));
    LowWithin(d);
    ClearWithin(d);
    AndLaws(x, d, ClearLow(d));
    AndLaws(y, d, ClearLow(d));
    AndLaws(x, d, LowBit(d));
    AndLaws(y, d, LowBit(d));
  }

  /** `pext` tells apart exactly the words that differ under the mask. */
  lemma {:induction false} PextInjective(x: Word32, y: Word32, d: Word32)
    ensures Pext(x, d) == Pext(y, d) <==> And(x, d) == And(y, d)
    decreases d.bits
  {
    hide And, LowBit, ClearLow;
    if d == ZERO {
      OrZero(x);
      OrZero(y);
    } else {
      ClearLess(d);
      MaskSplits(x, y, d);
      PextInjective(x, y, ClearLow(d));
    }
  }

  /** The step of the subset enumeration, `(s - d) & d`. */
  function NextSubset(s: Word32, d: Word32): (r: Word32)
    ensures Within(r, d)
  {
    AndLaws(Minus(s, d), d, d);
    OrZero(d);
    And(Minus(s, d), d)
  }

  /** Off the mask, the subset may be filled with ones: the carry then runs past them. */
  function Filled(s: Word32, d: Word32): Word32 { Or(s, Not(d)) }

  // A difference from a submask only carries. The steps go through a predicate for equality,
  // which keeps the solver from multiplying out subtractions.

  predicate Same(a: bv32, b: bv32) { a == b }

  lemma SameChain(a: bv32, b: bv32, c: bv32)
    requires Same(a, b) && Same(b, c)
    ensures Same(a, c)
  {
  }

  lemma SameEnds(a: bv32, b: bv32, c: bv32, d: bv32)
    requires Same(a, b) && Same(b, c) && Same(d, c)
    ensures a == d
  {
  }

  lemma TwosComplement(d: bv32)
    ensures 0 - d == !d + 1
  {
  }

  lemma SubtractAdds(s: bv32, d: bv32, n: bv32)
    requires n == 0 - d
    ensures Same(s - d, s + n)
  {
  }

  lemma DisjointSum(s: bv32, e: bv32, n: bv32)
    requires s & e == 0 && n == e + 1
    ensures Same(s + n, (s | e) + 1)
  {
  }

  lemma SubtractCarries(s: bv32, d: bv32, e: bv32)
    requires s & e == 0 && e == !d
    ensures Same(s - d, (s | e) + 1)
  {
    hide Same;
    var n := 0 - d;
    TwosComplement(d);
    SubtractAdds(s, d, n);
    DisjointSum(s, e, n);
    SameChain(s - d, s + n, (s | e) + 1);
  }

  function Carried(s: bv32, e: bv32): bv32 { Successor(s | e) }

  lemma DifferenceIs(s: bv32, d: bv32)
    ensures Same(Difference(s, d), s - d)
  {
  }

  lemma CarriedIs(s: bv32, e: bv32)
    ensures Same(Carried(s, e), (s | e) + 1)
  {
  }

  lemma DifferenceCarries(s: bv32, d: bv32, e: bv32)
    requires s & e == 0 && e == !d
    ensures Difference(s, d) == Carried(s, e)
  {
    hide Same, Difference, Carried;
    SubtractCarries(s, d, e);
    DifferenceIs(s, d);
    CarriedIs(s, e);
    SameEnds(Difference(s, d), s - d, (s | e) + 1, Carried(s, e));
  }

  lemma OffMask(s: Word32, d: Word32)
    requires Within(s, d)
    ensures s.bits & Not(d).bits == 0 && Not(d).bits == !d.bits
  {
  }

  lemma SubmaskCarries(s: Word32, d: Word32)
    requires Within(s, d)
    ensures Difference(s.bits, d.bits) == Carried(s.bits, Not(d).bits)
  {
    OffMask(s, d);
    hide Difference, Carried, Not, And;
    DifferenceCarries(s.bits, d.bits, Not(d).bits);
  }

  lemma IncrementCarries(s: Word32, e: Word32)
    ensures Increment(Or(s, e)) == W(Carried(s.bits, e.bits))
  {
    hide Successor;
  }

  lemma MinusIncrements(s: Word32, d: Word32)
    requires Within(s, d)
    ensures Minus(s, d) == Increment(Filled(s, d))
  {
    hide Increment, Difference, Carried, Or, Not, Within;
    IncrementCarries(s, Not(d));
    SubmaskCarries(s, d);
  }

  lemma NextIncrements(s: Word32, d: Word32)
    requires Within(s, d)
    ensures NextSubset(s, d) == And(Increment(Filled(s, d)), d)
  {
    hide And, Minus, Filled, Increment, Within;
    MinusIncrements(s, d);
  }

  /** With the low bit free the carry stops there. */
  lemma CarryStops(s: Word32, d: Word32)
    requires d != ZERO && Within(s, d) && And(s, LowBit(d)) == ZERO
    ensures And(Increment(Filled(s, d)), d) == Or(s, LowBit(d))
  {
  }

  lemma NextWithoutLow(s: Word32, d: Word32)
    requires d != ZERO && Within(s, d) && And(s, LowBit(d)) == ZERO
    ensures NextSubset(s, d) == Or(s, LowBit(d))
  {
    NextIncrements(s, d);
    CarryStops(s, d);
    hide NextSubset, And, Or, Increment, Filled, LowBit;
  }

  lemma FilledSame(s: Word32, d: Word32)
    requires Within(s, d) && And(s, LowBit(d)) == LowBit(d)
    ensures Filled(s, d) == Filled(And(s, ClearLow(d)), ClearLow(d))
  {
  }

  lemma CarryClearsLow(s: Word32, d: Word32)
    ensures And(Increment(Filled(And(s, ClearLow(d)), ClearLow(d))), LowBit(d)) == ZERO
  {
  }

  lemma NextWithLow(s: Word32, d: Word32)
    requires Within(s, d) && And(s, LowBit(d)) == LowBit(d)
    ensures NextSubset(s, d) == NextSubset(And(s, ClearLow(d)), ClearLow(d))
  {
    var rest := And(s, ClearLow(d));
    NextIncrements(s, d);
    FilledSame(s, d);
    CarryClearsLow(s, d);
    hide And, Or, LowBit, ClearLow, Increment, Filled, NextSubset;
    AndLaws(s, ClearLow(d), ClearLow(d));
    OrZero(ClearLow(d));
    NextIncrements(rest, ClearLow(d));
    LowJoins(d);
    var next := Increment(Filled(s, d));
    AndOr(next, LowBit(d), ClearLow(d));
    OrZero(And(next, ClearLow(d)));
  }

  lemma WithinRest(r: Word32, d: Word32)
    requires Within(r, ClearLow(d))
    ensures And(r, LowBit(d)) == ZERO
  {
    hide And, LowBit, ClearLow;
    LowApart(d);
    AndLaws(r, ClearLow(d), LowBit(d));
    AndLaws(ClearLow(d), LowBit(d), r);
    OrZero(r);
  }

  lemma SetLow(s: Word32, d: Word32)
    requires d != ZERO
    ensures And(Or(s, LowBit(d)), LowBit(d)) != ZERO
    ensures And(Or(s, LowBit(d)), ClearLow(d)) == And(s, ClearLow(d))
  {
  }

  /** Stepping counts: read through the mask, the next subset is the present one plus one. */
  lemma {:induction false} NextCounts(s: Word32, d: Word32)
    requires Within(s, d)
    ensures Pext(NextSubset(s, d), d) == if Pext(s, d) + 1 == Pow2(Pop(d)) then 0 else Pext(s, d) + 1
    decreases d.bits
  {
    hide And, Or, LowBit, ClearLow, NextSubset;
    PextBound(s, d);
    if d != ZERO {
      var rest := ClearLow(d);
      ClearLess(d);
      PextBound(s, rest);
      if And(s, LowBit(d)) == ZERO {
        NextWithoutLow(s, d);
        SetLow(s, d);
        PextInjective(Or(s, LowBit(d)), s, rest);
      } else {
        LowAllOrNone(s, d);
        NextWithLow(s, d);
        WithinRest(NextSubset(And(s, rest), rest), d);
        AndLaws(s, rest, rest);
        OrZero(rest);
        PextInjective(And(s, rest), s, rest);
        NextCounts(And(s, rest), rest);
      }
    }
  }

  /** The subset reached after `n` steps from the empty one. */
  function Nth(d: Word32, n: nat): (s: Word32)
    ensures Within(s, d)
  {
    OrZero(d);
    if n == 0 then ZERO else NextSubset(Nth(d, n - 1), d)
  }

  lemma {:induction false} NthCounts(d: Word32, n: nat)
    requires n < Pow2(Pop(d))
    ensures Pext(Nth(d, n), d) == n
  {
    hide And, NextSubset;
    if n == 0 {
      PextZero(d);
    } else {
      NthCounts(d, n - 1);
      NextCounts(Nth(d, n - 1), d);
    }
  }

  lemma NextIsZero(s: Word32, d: Word32)
    requires Within(s, d)
    ensures NextSubset(s, d) == ZERO <==> Pext(s, d) + 1 == Pow2(Pop(d))
  {
    hide And, NextSubset;
    NextCounts(s, d);
    PextZero(d);
    OrZero(d);
    PextInjective(NextSubset(s, d), ZERO, d);
  }

  /** Every submask of `d` is met, at the step its packed bits name and at no other
      step of the first `2^popcount(d)`; the step after those is back at the empty one. */
  lemma SubsetsOnce(d: Word32, s: Word32)
    requires Within(s, d)
    ensures Pext(s, d) < Pow2(Pop(d))
    ensures forall n: nat :: n < Pow2(Pop(d)) ==> (Nth(d, n) == s <==> n == Pext(s, d))
    ensures Nth(d, Pow2(Pop(d))) == ZERO
  {
    hide And, NextSubset, Pext, Pow2, Pop;
    PextBound(s, d);
    forall n: nat | n < Pow2(Pop(d)) ensures Nth(d, n) == s <==> n == Pext(s, d) {
      NthCounts(d, n);
      PextInjective(Nth(d, n), s, d);
    }
    var last := Pow2(Pop(d)) - 1;
    NthCounts(d, last);
    NextIsZero(Nth(d, last), d);
  }

  // ---- single places ----

  function Double(x: Word32): Word32 { W(x.bits << 1) }

  /** `1u << i` */
  function Place(i: nat): Word32 { if i == 0 then W(1) else Double(Place(i - 1)) }

  /** The places under `i`. */
  function Below(i: nat): Word32 { if i == 0 then ZERO else Or(Below(i - 1), Place(i - 1)) }

  function Decrement(x: Word32): Word32 { W(x.bits - 1) }

  predicate Single(p: Word32) { And(p, Decrement(p)) == ZERO }

  lemma DoubleSingle(p: Word32)
    requires Single(p) && p != ZERO
    ensures Single(Double(p)) && Or(Decrement(p), p) == Decrement(Double(p))
  {
  }

  lemma TopPlace()
    ensures Place(31) == W(0x80000000)
  {
    assert Place(8) == W(0x100);
    assert Place(16) == W(0x10000);
    assert Place(24) == W(0x1000000);
  }

  lemma {:induction false} PlaceNonzero(i: nat)
    requires i < 32
    ensures Place(i) != ZERO
    decreases 31 - i
  {
    if i == 31 { TopPlace(); } else { PlaceNonzero(i + 1); }
  }

  lemma {:induction false} PlaceSingle(i: nat)
    requires i <= 32
    ensures Single(Place(i)) && Below(i) == Decrement(Place(i)) && And(Below(i), Place(i)) == ZERO
  {
    hide Single, Or, And, Double, Decrement;
    if i == 0 {
      SingleOne();
    } else {
      PlaceSingle(i - 1);
      PlaceNonzero(i - 1);
      DoubleSingle(Place(i - 1));
    }
    SingleMeans(Place(i));
  }

  lemma SingleOne()
    ensures Single(W(1)) && Decrement(W(1)) == ZERO
  {
  }

  lemma SingleMeans(p: Word32)
    requires Single(p)
    ensures And(Decrement(p), p) == ZERO
  {
  }

  lemma SingleAllOrNone(x: Word32, p: Word32)
    requires Single(p)
    ensures And(x, p) == ZERO || And(x, p) == p
  {
  }
}
