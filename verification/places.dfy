/** Single bits of a word by position. */
module Places {
  import opened Bits

  predicate Has(w: Word32, i: nat) { And(w, Place(i)) != ZERO }

  lemma {:induction false} PlaceUnder(i: nat, j: nat)
    requires i < j <= 32
    ensures Within(Place(i), Below(j))
    decreases j
  {
    hide And, Or, Place;
    OrAbsorbs(Below(j - 1), Place(j - 1));
    AndLaws(Below(j), Place(j - 1), Below(j));
    AndLaws(Below(j), Below(j - 1), Below(j));
    if i < j - 1 {
      PlaceUnder(i, j - 1);
      AndLaws(Place(i), Below(j - 1), Below(j));
      AndLaws(Below(j - 1), Below(j), Place(i));
    } else {
      AndLaws(Below(j), Place(i), Place(i));
    }
  }

  lemma PlacesApart(i: nat, j: nat)
    requires i < 32 && j < 32 && i != j
    ensures And(Place(i), Place(j)) == ZERO
  {
    hide And, Or, Place, Below;
    var lo, hi := if i < j then i else j, if i < j then j else i;
    PlaceUnder(lo, hi);
    PlaceSingle(hi);
    AndLaws(Place(lo), Below(hi), Place(hi));
    OrZero(Place(lo));
    AndLaws(Place(lo), Place(hi), ZERO);
  }

  lemma HasWhole(w: Word32, i: nat)
    requires i < 32
    ensures Has(w, i) <==> And(w, Place(i)) == Place(i)
  {
    hide And, Place, Single;
    PlaceSingle(i);
    PlaceNonzero(i);
    SingleAllOrNone(w, Place(i));
  }

  lemma HasAnd(v: Word32, w: Word32, i: nat)
    requires i < 32
    ensures Has(And(v, w), i) <==> Has(v, i) && Has(w, i)
  {
    hide And, Place;
    HasWhole(w, i);
    PlaceNonzero(i);
    AndLaws(v, w, Place(i));
    OrZero(v);
  }

  lemma HasSet(w: Word32, i: nat, j: nat)
    requires i < 32 && j < 32
    ensures Has(Or(w, Place(i)), j) <==> Has(w, j) || i == j
  {
    hide And, Or, Place;
    OrAnd(w, Place(i), Place(j));
    OrZero(And(w, Place(j)));
    OrZero(Place(j));
    if i == j {
      PlaceNonzero(i);
      OrAbsorbs(w, Place(i));
    } else {
      PlacesApart(i, j);
    }
  }

  lemma HasCleared(w: Word32, i: nat, j: nat)
    requires i < 32 && j < 32
    ensures Has(And(w, Not(Place(i))), j) <==> Has(w, j) && i != j
  {
    hide And, Place, Not;
    HasAnd(w, Not(Place(i)), j);
    if i == j {
      NotMeets(Place(i));
    } else {
      PlacesApart(i, j);
      PlaceNonzero(j);
      NotAvoids(Place(j), Place(i));
      AndLaws(Place(j), Place(i), Place(j));
    }
  }

  lemma NotMeets(p: Word32)
    ensures And(Not(p), p) == ZERO
  {
  }

  lemma NotAvoids(p: Word32, q: Word32)
    requires And(q, p) == ZERO
    ensures And(Not(q), p) == p
  {
  }

  lemma ZeroHas(i: nat)
    ensures !Has(ZERO, i)
  {
  }

  /** `std::countr_zero`, searching upwards from `i`. */
  function FirstFrom(w: Word32, i: nat): (r: nat)
    requires i <= 32
    ensures i <= r <= 32 && (r < 32 ==> Has(w, r))
    ensures forall k :: i <= k < r ==> !Has(w, k)
    decreases 32 - i
  {
    if i == 32 || Has(w, i) then i else FirstFrom(w, i + 1)
  }

  function TrailingZeros(w: Word32): (r: nat)
    ensures r <= 32 && (r < 32 ==> Has(w, r))
    ensures forall k :: 0 <= k < r ==> !Has(w, k)
  {
    FirstFrom(w, 0)
  }

  lemma {:induction false} NoneBelow(w: Word32, n: nat)
    requires n <= 32 && forall k :: 0 <= k < n ==> !Has(w, k)
    ensures And(w, Below(n)) == ZERO
  {
    hide And, Or, Place;
    if n == 0 {
      OrZero(w);
    } else {
      NoneBelow(w, n - 1);
      AndOr(w, Below(n - 1), Place(n - 1));
      OrZero(ZERO);
      assert !Has(w, n - 1);
    }
  }

  lemma AllPlaces(w: Word32)
    ensures And(w, Below(32)) == w
  {
    PlaceSingle(32);
    TopPlace();
    assert Place(32) == Double(Place(31));
    assert Below(32) == W(0xFFFFFFFF);
  }

  lemma SomeBit(w: Word32)
    requires w != ZERO
    ensures TrailingZeros(w) < 32
  {
    hide And, Place, Below;
    if TrailingZeros(w) == 32 {
      NoneBelow(w, 32);
      AllPlaces(w);
      assert false;
    }
  }

  /** Clearing the lowest of the bits from `p` up clears just `p`. */
  lemma ClearSingle(w: Word32, p: Word32)
    requires Single(p) && And(w, Decrement(p)) == ZERO && And(w, p) == p
    ensures ClearLow(w) == And(w, Not(p))
  {
  }

  lemma ClearLowBits(w: Word32, j: nat)
    requires w != ZERO && j < 32
    ensures Has(ClearLow(w), j) <==> Has(w, j) && j != TrailingZeros(w)
  {
    hide And, Place, Below, ClearLow, Not, Single;
    SomeBit(w);
    var i := TrailingZeros(w);
    NoneBelow(w, i);
    PlaceSingle(i);
    HasWhole(w, i);
    ClearSingle(w, Place(i));
    HasCleared(w, i, j);
  }
}
