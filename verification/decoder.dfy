/** The instruction decoder: registered bit patterns, the lookup tables built from them,
    and the two-way cache in front. */
module Decoder {
  import opened Powers
  import opened Bits

  /** A registered pattern: the bits it fixes and their values; an index into the list stands
      for the pointer (-1 for a null one). */
  datatype Pattern = Pattern(mask: Word32, value: Word32, immediate: Word32 -> bv64, size: nat)

  const HASH_MASK := W(0xFFF0707F)
  const HASH_MASK_16 := W(0x0000FFFF)
  const LUT_SIZE := 0x400000
  const LUT_SIZE_16 := 0x10000
  const CACHE_SIZE := 65536
  const EVERY_BIT := W(0xFFFFFFFF)

  predicate Formed(p: Pattern) { Within(p.value, p.mask) && (p.size == 2 ==> Within(p.mask, HASH_MASK_16)) }

  predicate AllFormed(ps: seq<Pattern>) { forall i :: 0 <= i < |ps| ==> Formed(ps[i]) }

  /** The word has the pattern's values at the bits the pattern fixes within `hash`. */
  predicate Agrees(p: Pattern, hash: Word32, w: Word32) { And(w, And(p.mask, hash)) == And(p.value, hash) }

  predicate Matches(p: Pattern, w: Word32) { And(w, p.mask) == p.value }

  predicate Candidate(ps: seq<Pattern>, short: bool, hash: Word32, w: Word32, i: int)
    requires 0 <= i < |ps|
  {
    (ps[i].size == 2) == short && Agrees(ps[i], hash, w)
  }

  /** One step of the scan: pattern `k` against the best before it. */
  function Prefer(ps: seq<Pattern>, k: nat, short: bool, hash: Word32, w: Word32, b: int): int
    requires k < |ps| && -1 <= b < |ps|
  {
    if Candidate(ps, short, hash, w, k) && (b < 0 || Pop(ps[k].mask) > Pop(ps[b].mask)) then k else b
  }

  /** Linear scan of the first `n` patterns of one width: the first of those with the most
      fixed bits that agree with `w` on `hash`; -1 when none agrees. */
  function Best(ps: seq<Pattern>, n: nat, short: bool, hash: Word32, w: Word32): (r: int)
    requires n <= |ps|
    ensures -1 <= r < n
    ensures r >= 0 ==> Agrees(ps[r], hash, w) && (ps[r].size == 2) == short
  {
    if n == 0 then -1
    else Prefer(ps, n - 1, short, hash, w, Best(ps, n - 1, short, hash, w))
  }

  /** `p` at `i` is preferred to the pattern at `j`: more fixed bits, or as many and earlier. */
  predicate Beats(ps: seq<Pattern>, i: int, j: int)
    requires 0 <= i < |ps| && 0 <= j < |ps|
  {
    Pop(ps[i].mask) > Pop(ps[j].mask) || (Pop(ps[i].mask) == Pop(ps[j].mask) && i <= j)
  }

  /** The scan's answer, said without scanning. */
  ghost predicate Wins(ps: seq<Pattern>, n: nat, short: bool, hash: Word32, w: Word32, r: int)
    requires n <= |ps|
  {
    && -1 <= r < n
    && (r == -1 ==> forall j :: 0 <= j < n ==> !Candidate(ps, short, hash, w, j))
    && (r >= 0 ==> Candidate(ps, short, hash, w, r))
    && (r >= 0 ==> forall j :: 0 <= j < n && Candidate(ps, short, hash, w, j) ==> Beats(ps, r, j))
  }

  lemma {:induction false} BestWins(ps: seq<Pattern>, n: nat, short: bool, hash: Word32, w: Word32, r: int)
    requires n <= |ps|
    ensures r == Best(ps, n, short, hash, w) <==> Wins(ps, n, short, hash, w, r)
  {
    hide And, Pop, Agrees;
    if n > 0 {
      var b := Best(ps, n - 1, short, hash, w);
      BestWins(ps, n - 1, short, hash, w, b);
      assert Wins(ps, n, short, hash, w, Best(ps, n, short, hash, w));
      WinnerUnique(ps, n, short, hash, w, r, Best(ps, n, short, hash, w));
    }
  }

  lemma WinnerUnique(ps: seq<Pattern>, n: nat, short: bool, hash: Word32, w: Word32, r: int, s: int)
    requires n <= |ps|
    requires Wins(ps, n, short, hash, w, s)
    ensures Wins(ps, n, short, hash, w, r) ==> r == s
  {
    hide And, Pop, Agrees;
  }

  // ---- building the tables ----

  /** The bits of the hash a pattern leaves open. */
  function DontCare(p: Pattern, hash: Word32): Word32 { And(hash, Not(And(p.mask, hash))) }

  lemma HashSplits(m: Word32, h: Word32)
    ensures Or(And(m, h), And(h, Not(And(m, h)))) == h
  {
  }

  lemma SidesApart(m: Word32, h: Word32)
    ensures And(And(m, h), And(h, Not(And(m, h)))) == ZERO
  {
  }

  lemma SplitMask(x: Word32, y: Word32, a: Word32, b: Word32)
    ensures And(x, Or(a, b)) == And(y, Or(a, b)) <==> And(x, a) == And(y, a) && And(x, b) == And(y, b)
  {
    hide And, Or;
    AndOr(x, a, b);
    AndOr(y, a, b);
    OrAbsorbs(a, b);
    AndLaws(x, Or(a, b), a);
    AndLaws(y, Or(a, b), a);
    AndLaws(x, Or(a, b), b);
    AndLaws(y, Or(a, b), b);
  }

  /** A word made of a part within `a` and a part within `b`, apart from each other. */
  lemma Parts(x: Word32, y: Word32, a: Word32, b: Word32)
    requires Within(x, a) && Within(y, b) && And(a, b) == ZERO
    ensures And(Or(x, y), a) == x && And(Or(x, y), b) == y
  {
    hide And, Or;
    OrAnd(x, y, a);
    OrAnd(x, y, b);
    AndLaws(y, b, a);
    AndLaws(x, a, b);
    AndLaws(a, b, a);
    OrZero(x);
    OrZero(y);
  }

  lemma ValueFixed(p: Pattern, hash: Word32)
    requires Within(p.value, p.mask)
    ensures Within(And(p.value, hash), And(p.mask, hash))
  {
    AndLaws(p.value, p.mask, hash);
    hide And;
    AndLaws(p.value, hash, And(p.mask, hash));
    AndLaws(hash, p.mask, hash);
    AndLaws(p.mask, hash, hash);
    OrZero(hash);
    AndLaws(p.mask, hash, hash);
  }

  /** Whose slot the enumeration writes: the words that agree with the pattern and have the
      present submask in the open bits. */
  lemma SlotOwners(p: Pattern, hash: Word32, sub: Word32, w: Word32)
    requires Within(p.value, p.mask) && Within(sub, DontCare(p, hash))
    ensures Pext(w, hash) == Pext(Or(And(p.value, hash), sub), hash)
      <==> Agrees(p, hash, w) && Pext(w, DontCare(p, hash)) == Pext(sub, DontCare(p, hash))
  {
    hide And, Or, Not, Pext;
    var fixed, open := And(p.mask, hash), DontCare(p, hash);
    var test := Or(And(p.value, hash), sub);
    HashSplits(p.mask, hash);
    SidesApart(p.mask, hash);
    ValueFixed(p, hash);
    Parts(And(p.value, hash), sub, fixed, open);
    SplitMask(w, test, fixed, open);
    PextInjective(w, Or(And(p.value, hash), sub), hash);
    PextInjective(w, sub, DontCare(p, hash));
  }

  /** What a slot seen by `w` holds once the first `steps` submasks of pattern `k` are entered. */
  function Slot(ps: seq<Pattern>, k: nat, short: bool, hash: Word32, w: Word32, steps: nat): int
    requires k < |ps|
  {
    if Pext(w, DontCare(ps[k], hash)) < steps then Best(ps, k + 1, short, hash, w)
    else Best(ps, k, short, hash, w)
  }

  ghost predicate Holds(table: seq<int>, ps: seq<Pattern>, n: nat, short: bool, hash: Word32)
    requires n <= |ps|
  {
    forall w :: Pext(w, hash) < |table| && table[Pext(w, hash)] == Best(ps, n, short, hash, w)
  }

  ghost predicate PartlyHolds(table: seq<int>, ps: seq<Pattern>, k: nat, short: bool, hash: Word32, steps: nat)
    requires k < |ps|
  {
    forall w :: Pext(w, hash) < |table| && table[Pext(w, hash)] == Slot(ps, k, short, hash, w, steps)
  }

  /** Entering one submask brings exactly the slots it owns up to date. */
  lemma OneEntry(before: seq<int>, after: seq<int>, ps: seq<Pattern>, k: nat, short: bool, hash: Word32,
                 sub: Word32, steps: nat)
    requires k < |ps| && Within(ps[k].value, ps[k].mask) && (ps[k].size == 2) == short
    requires Within(sub, DontCare(ps[k], hash)) && Pext(sub, DontCare(ps[k], hash)) == steps
    requires PartlyHolds(before, ps, k, short, hash, steps)
    requires
      var test := Or(And(ps[k].value, hash), sub);
      var idx := Pext(test, hash);
      var held := before[idx];
      |after| == |before|
      && after[idx] == (if held < 0 || Pop(ps[k].mask) > Pop(ps[held].mask) then k else held)
      && forall i :: 0 <= i < |before| && i != idx ==> after[i] == before[i]
    ensures PartlyHolds(after, ps, k, short, hash, steps + 1)
  {
    hide And, Or, Pext, Within, Pop, DontCare;
    var test := Or(And(ps[k].value, hash), sub);
    var idx := Pext(test, hash);
    SlotOwners(ps[k], hash, sub, test);
    assert before[idx] == Slot(ps, k, short, hash, test, steps);
    forall w ensures Pext(w, hash) < |after| && after[Pext(w, hash)] == Slot(ps, k, short, hash, w, steps + 1) {
      SlotOwners(ps[k], hash, sub, w);
      assert before[Pext(w, hash)] == Slot(ps, k, short, hash, w, steps);
      if Pext(w, hash) == idx {
        PextInjective(w, test, hash);
      }
    }
  }

  /** The enumeration that enters pattern `k` at every index it can be looked up by. */
  method AddPattern(table: array<int>, ps: seq<Pattern>, k: nat, short: bool, hash: Word32)
    requires k < |ps| && Within(ps[k].value, ps[k].mask) && (ps[k].size == 2) == short
    requires Holds(table[..], ps, k, short, hash)
    modifies table
    ensures Holds(table[..], ps, k + 1, short, hash)
  {
    hide And, Or, Pext, Within, Pop, Best, Pow2, NextSubset;
    var open := DontCare(ps[k], hash);
    hide DontCare;
    var sub := ZERO;
    var again := true;
    ghost var steps := 0;
    ghost var total := Pow2(Pop(open));
    StartsAtZero(open);
    while again
      invariant Within(sub, open)
      invariant again ==> Pext(sub, open) == steps < total
      invariant !again ==> steps == total
      invariant PartlyHolds(table[..], ps, k, short, hash, steps)
      decreases total - steps
    {
      var test := Or(And(ps[k].value, hash), sub);
      var idx := Pext(test, hash);
      ghost var before := table[..];
      assert idx < |before|;
      EntryInRange(before, ps, k, short, hash, steps, test);
      if table[idx] != -1 {
        if Pop(ps[k].mask) > Pop(ps[table[idx]].mask) {
          table[idx] := k;
        }
      } else {
        table[idx] := k;
      }
      OneEntry(before, table[..], ps, k, short, hash, sub, steps);
      NextIsZero(sub, open);
      NextCounts(sub, open);
      sub := NextSubset(sub, open);
      steps := steps + 1;
      again := sub != ZERO;
    }
    AllEntered(table[..], ps, k, short, hash, total);
  }

  lemma StartsAtZero(d: Word32)
    ensures Within(ZERO, d) && Pext(ZERO, d) == 0
  {
    PextZero(d);
  }

  lemma EntryInRange(t: seq<int>, ps: seq<Pattern>, k: nat, short: bool, hash: Word32, steps: nat, w: Word32)
    requires k < |ps| && PartlyHolds(t, ps, k, short, hash, steps)
    ensures Pext(w, hash) < |t| && -1 <= t[Pext(w, hash)] < |ps|
  {
    hide Pext;
  }

  lemma AllEntered(t: seq<int>, ps: seq<Pattern>, k: nat, short: bool, hash: Word32, total: nat)
    requires k < |ps| && PartlyHolds(t, ps, k, short, hash, total)
    requires total == Pow2(Pop(DontCare(ps[k], hash)))
    ensures Holds(t, ps, k + 1, short, hash)
  {
    hide Pext, Pow2, Pop, DontCare;
    forall w ensures Pext(w, hash) < |t| && t[Pext(w, hash)] == Best(ps, k + 1, short, hash, w) {
      PextBound(w, DontCare(ps[k], hash));
      assert t[Pext(w, hash)] == Slot(ps, k, short, hash, w, total);
    }
  }

  // ---- registering a pattern ----

  /** The word has the digits of the pattern text, rightmost character at bit 0, up to bit `n`. */
  ghost predicate Fits(text: string, n: nat, w: Word32)
    requires n <= |text|
  {
    forall i :: 0 <= i < n ==>
      (text[|text| - 1 - i] == '1' ==> And(w, Place(i)) == Place(i))
      && (text[|text| - 1 - i] == '0' ==> And(w, Place(i)) == ZERO)
  }

  ghost predicate Reads(text: string, n: nat, mask: Word32, value: Word32)
    requires n <= |text|
  {
    && Within(value, mask) && Within(mask, Below(n))
    && forall w :: And(w, mask) == value <==> Fits(text, n, w)
  }

  /** The places the last `n` characters fix, and those they fix to one. */
  function MaskUpTo(text: string, n: nat): Word32
    requires n <= |text|
  {
    if n == 0 then ZERO
    else if text[|text| - n] in "01" then Or(MaskUpTo(text, n - 1), Place(n - 1))
    else MaskUpTo(text, n - 1)
  }

  function ValueUpTo(text: string, n: nat): Word32
    requires n <= |text|
  {
    if n == 0 then ZERO
    else if text[|text| - n] == '1' then Or(ValueUpTo(text, n - 1), Place(n - 1))
    else ValueUpTo(text, n - 1)
  }

  lemma WithinGrows(x: Word32, a: Word32, b: Word32)
    requires Within(x, a)
    ensures Within(x, Or(a, b))
  {
  }

  lemma BothWithin(x: Word32, y: Word32, a: Word32)
    requires Within(x, a) && Within(y, a)
    ensures Within(Or(x, y), a)
  {
    hide And, Or;
    OrAnd(x, y, a);
  }

  lemma WithinApart(m: Word32, a: Word32, p: Word32)
    requires Within(m, a) && And(a, p) == ZERO
    ensures And(m, p) == ZERO && And(p, m) == ZERO
  {
    hide And;
    AndLaws(m, a, p);
    AndLaws(p, m, a);
    OrZero(m);
  }

  /** Adding one place `p` to a mask: a word passes when it passed before and has the digit `q` there. */
  lemma OneMore(w: Word32, m: Word32, v: Word32, p: Word32, q: Word32)
    requires Within(v, m) && And(m, p) == ZERO && (q == p || q == ZERO)
    ensures And(w, Or(m, p)) == Or(v, q) <==> And(w, m) == v && And(w, p) == q
  {
    hide And, Or;
    AndOr(w, m, p);
    OrZero(p);
    Parts(v, q, m, p);
    AndLaws(w, m, m);
    AndLaws(w, p, p);
    OrZero(m);
    Parts(And(w, m), And(w, p), m, p);
  }

  lemma FitsOneMore(text: string, n: nat, w: Word32)
    requires n < |text|
    ensures Fits(text, n + 1, w) <==>
      Fits(text, n, w)
      && (text[|text| - 1 - n] == '1' ==> And(w, Place(n)) == Place(n))
      && (text[|text| - 1 - n] == '0' ==> And(w, Place(n)) == ZERO)
  {
    hide And, Place;
  }

  lemma ReadOneMore(text: string, n: nat, mask: Word32, value: Word32)
    requires n < |text| <= 32 && Reads(text, n, mask, value)
    ensures text[|text| - 1 - n] == '1' ==> Reads(text, n + 1, Or(mask, Place(n)), Or(value, Place(n)))
    ensures text[|text| - 1 - n] == '0' ==> Reads(text, n + 1, Or(mask, Place(n)), value)
    ensures text[|text| - 1 - n] !in "01" ==> Reads(text, n + 1, mask, value)
  {
    var c, p := text[|text| - 1 - n], Place(n);
    var q := if c == '1' then p else ZERO;
    PlaceSingle(n);
    PlaceNonzero(n);
    hide And, Or, Place, Below, Fits, Single;
    assert Below(n + 1) == Or(Below(n), p) by { BelowNext(n); }
    WithinApart(mask, Below(n), p);
    WithinGrows(mask, Below(n), p);
    OrMeets(Below(n), p);
    BothWithin(mask, p, Below(n + 1));
    WithinGrows(value, mask, p);
    OrMeets(mask, p);
    BothWithin(value, p, Or(mask, p));
    OrZero(value);
    forall w
      ensures Fits(text, n + 1, w) <==>
        if c in "01" then And(w, Or(mask, p)) == Or(value, q) else And(w, mask) == value
    {
      FitsOneMore(text, n, w);
      OneMore(w, mask, value, p, q);
    }
  }

  lemma OrMeets(a: Word32, b: Word32)
    ensures Within(b, Or(a, b))
  {
  }

  lemma BelowNext(n: nat)
    ensures Below(n + 1) == Or(Below(n), Place(n))
  {
  }

  lemma BelowSixteen()
    ensures Below(16) == HASH_MASK_16
  {
    PlaceSingle(16);
    assert Place(8) == W(0x100);
    assert Place(16) == W(0x10000);
  }

  /** Turns a pattern text into the two words the tables work with. */
  method ParseText(text: string) returns (mask: Word32, value: Word32)
    requires |text| == 16 || |text| == 32
    ensures Within(value, mask) && (|text| == 16 ==> Within(mask, HASH_MASK_16))
    ensures forall w :: And(w, mask) == value <==> Fits(text, |text|, w)
    ensures mask == MaskUpTo(text, |text|) && value == ValueUpTo(text, |text|)
  {
    mask, value := ZERO, ZERO;
    hide And, Or, Place, Below, Fits;
    NothingRead(text);
    for i := 0 to |text|
      invariant Reads(text, i, mask, value)
      invariant mask == MaskUpTo(text, i) && value == ValueUpTo(text, i)
    {
      var c := text[|text| - 1 - i];
      ReadOneMore(text, i, mask, value);
      if c == '1' {
        value := Or(value, Place(i));
        mask := Or(mask, Place(i));
      } else if c == '0' {
        mask := Or(mask, Place(i));
      }
    }
    BelowSixteen();
  }

  lemma NothingRead(text: string)
    ensures Reads(text, 0, ZERO, ZERO)
  {
  }

  // ---- a table lookup against a scan ----

  /** What a decode without the cache finds: the table entry, kept if the word really matches. */
  function Find(ps: seq<Pattern>, w: Word32): (r: int)
    ensures -1 <= r < |ps|
  {
    var d16 := if And(w, W(3)) != W(3) then Best(ps, |ps|, true, HASH_MASK_16, And(w, HASH_MASK_16)) else -1;
    var d := if d16 < 0 then Best(ps, |ps|, false, HASH_MASK, w) else d16;
    if d >= 0 && Matches(ps[d], w) then d else -1
  }

  /** The plain meaning: among the 16-bit patterns if one matches a compressed word, else among
      the 32-bit ones, the first of those with the most fixed bits that the word matches. */
  function Scan(ps: seq<Pattern>, w: Word32): (r: int)
    ensures -1 <= r < |ps|
  {
    var d16 := if And(w, W(3)) != W(3) then Best(ps, |ps|, true, EVERY_BIT, w) else -1;
    if d16 >= 0 then d16 else Best(ps, |ps|, false, EVERY_BIT, w)
  }

  lemma EveryBit(x: Word32)
    ensures And(x, EVERY_BIT) == x
  {
  }

  lemma MatchesIsAgrees(p: Pattern, w: Word32)
    ensures Matches(p, w) <==> Agrees(p, EVERY_BIT, w)
  {
    hide And;
    EveryBit(p.mask);
    EveryBit(p.value);
  }

  lemma MatchAgrees(p: Pattern, hash: Word32, w: Word32)
    requires Matches(p, w)
    ensures Agrees(p, hash, w)
  {
    hide And;
    AndLaws(w, p.mask, hash);
  }

  lemma ShortAgrees(p: Pattern, w: Word32)
    requires Formed(p) && p.size == 2
    ensures Agrees(p, HASH_MASK_16, And(w, HASH_MASK_16)) == Agrees(p, EVERY_BIT, w)
  {
    hide And;
    EveryBit(p.mask);
    EveryBit(p.value);
    AndLaws(w, HASH_MASK_16, p.mask);
    AndLaws(p.mask, HASH_MASK_16, w);
    AndLaws(p.value, p.mask, HASH_MASK_16);
    AndLaws(HASH_MASK_16, p.mask, w);
  }

  lemma {:induction false} ShortScan(ps: seq<Pattern>, n: nat, w: Word32)
    requires n <= |ps| && AllFormed(ps)
    ensures Best(ps, n, true, HASH_MASK_16, And(w, HASH_MASK_16)) == Best(ps, n, true, EVERY_BIT, w)
  {
    hide And, Formed, Pop, Agrees;
    if n > 0 {
      ShortScan(ps, n - 1, w);
      if ps[n - 1].size == 2 { ShortAgrees(ps[n - 1], w); }
    }
  }

  /** The 32-bit table's entry is right about `w`, or there was nothing to find. */
  ghost predicate Settled(ps: seq<Pattern>, w: Word32) {
    var c := Best(ps, |ps|, false, HASH_MASK, w);
    (c >= 0 && Matches(ps[c], w)) || forall j :: 0 <= j < |ps| && ps[j].size != 2 ==> !Matches(ps[j], w)
  }

  ghost predicate ShortHit(ps: seq<Pattern>, w: Word32) {
    And(w, W(3)) != W(3) && exists j :: 0 <= j < |ps| && ps[j].size == 2 && Matches(ps[j], w)
  }

  lemma LongScan(ps: seq<Pattern>, w: Word32)
    ensures
      var c := Best(ps, |ps|, false, HASH_MASK, w);
      (if c >= 0 && Matches(ps[c], w) then c else -1) == Best(ps, |ps|, false, EVERY_BIT, w) <==> Settled(ps, w)
  {
    hide And, Pop, Agrees, Matches, Best;
    var c, r := Best(ps, |ps|, false, HASH_MASK, w), Best(ps, |ps|, false, EVERY_BIT, w);
    BestWins(ps, |ps|, false, HASH_MASK, w, c);
    BestWins(ps, |ps|, false, EVERY_BIT, w, r);
    forall j | 0 <= j < |ps|
      ensures Candidate(ps, false, EVERY_BIT, w, j) <==> ps[j].size != 2 && Matches(ps[j], w)
      ensures Candidate(ps, false, EVERY_BIT, w, j) ==> Candidate(ps, false, HASH_MASK, w, j)
    {
      MatchesIsAgrees(ps[j], w);
      if Matches(ps[j], w) { MatchAgrees(ps[j], HASH_MASK, w); }
    }
    if c >= 0 && Matches(ps[c], w) {
      BestWins(ps, |ps|, false, EVERY_BIT, w, c);
    }
  }

  lemma ShortFound(ps: seq<Pattern>, w: Word32)
    requires AllFormed(ps)
    ensures
      var r := Best(ps, |ps|, true, HASH_MASK_16, And(w, HASH_MASK_16));
      r == Best(ps, |ps|, true, EVERY_BIT, w)
      && (r >= 0 ==> Matches(ps[r], w))
      && (r >= 0 <==> exists j :: 0 <= j < |ps| && ps[j].size == 2 && Matches(ps[j], w))
  {
    hide And, Pop, Agrees, Matches, Best, Formed;
    var r := Best(ps, |ps|, true, EVERY_BIT, w);
    ShortScan(ps, |ps|, w);
    BestWins(ps, |ps|, true, EVERY_BIT, w, r);
    forall j | 0 <= j < |ps|
      ensures Candidate(ps, true, EVERY_BIT, w, j) <==> ps[j].size == 2 && Matches(ps[j], w)
    {
      MatchesIsAgrees(ps[j], w);
    }
  }

  /** When the tables tell the truth: a 16-bit pattern takes the word, or the 32-bit entry
      survives the final comparison, or no 32-bit pattern matches at all. */
  lemma FindExactly(ps: seq<Pattern>, w: Word32)
    requires AllFormed(ps)
    ensures Find(ps, w) == Scan(ps, w) <==> ShortHit(ps, w) || Settled(ps, w)
  {
    hide And, Pop, Agrees, Matches, Best, Formed, Settled, AllFormed;
    LongScan(ps, w);
    ShortFound(ps, w);
  }

  /** Not every pattern list is safe: a pattern fixing bit 7, which the hash drops, would hide a
      looser one. No list of registered instructions holds such a pair. */
  lemma FindShadowed()
    ensures
      var ps := [Pattern(W(0x7F), W(0x33), _ => 0, 4), Pattern(W(0xFF), W(0xB3), _ => 0, 4)];
      AllFormed(ps) && Scan(ps, W(0x33)) == 0 && Find(ps, W(0x33)) == -1
  {
    var ps := [Pattern(W(0x7F), W(0x33), _ => 0, 4), Pattern(W(0xFF), W(0xB3), _ => 0, 4)];
    assert Pop(W(0x7F)) == 7;
    assert Pop(W(0xFF)) == 8;
    assert Best(ps, 0, false, HASH_MASK, W(0x33)) == -1;
    assert Best(ps, 1, false, HASH_MASK, W(0x33)) == 0;
    assert Best(ps, 0, false, EVERY_BIT, W(0x33)) == -1;
    assert Best(ps, 1, false, EVERY_BIT, W(0x33)) == 0;
  }

  /** Outside the hash, `i` asks for nothing that `j` does not ask for too. */
  predicate Covered(ps: seq<Pattern>, i: int, j: int)
    requires 0 <= i < |ps| && 0 <= j < |ps|
  {
    var outside := And(ps[i].mask, Not(HASH_MASK));
    Within(outside, ps[j].mask) && And(ps[j].value, outside) == And(ps[i].value, outside)
  }

  /** Some word agrees with both on the hash. */
  predicate Compatible(p: Pattern, q: Pattern) {
    And(And(p.value, HASH_MASK), q.mask) == And(And(q.value, HASH_MASK), p.mask)
  }

  /** No 32-bit pattern hides another one through the bits the hash drops. */
  ghost predicate NoShadow(ps: seq<Pattern>) {
    forall i, j :: 0 <= i < |ps| && 0 <= j < |ps| && ps[i].size != 2 && ps[j].size != 2 ==>
      Beats(ps, i, j) && Compatible(ps[i], ps[j]) ==> Covered(ps, i, j)
  }

  /** Without such pairs, lookup and scan agree on every word. */
  lemma NoShadowDecodes(ps: seq<Pattern>, w: Word32)
    requires AllFormed(ps) && NoShadow(ps)
    ensures Find(ps, w) == Scan(ps, w)
  {
    hide And, Pop, Agrees, Matches, Best, Formed, Find, Scan, Not, AllFormed, ShortHit;
    FindExactly(ps, w);
    var c := Best(ps, |ps|, false, HASH_MASK, w);
    BestWins(ps, |ps|, false, HASH_MASK, w, c);
    forall j | 0 <= j < |ps| && ps[j].size != 2 && Matches(ps[j], w)
      ensures c >= 0 && Matches(ps[c], w)
    {
      MatchAgrees(ps[j], HASH_MASK, w);
      assert Candidate(ps, false, HASH_MASK, w, j);
      assert Beats(ps, c, j);
      HashCompatible(ps[c], ps[j], w);
      assert Covered(ps, c, j);
      ValueWithin(ps, c);
      CoveredMatches(ps, c, j, w);
    }
  }

  lemma ValueWithin(ps: seq<Pattern>, i: int)
    requires AllFormed(ps) && 0 <= i < |ps|
    ensures Within(ps[i].value, ps[i].mask)
  {
    assert Formed(ps[i]);
  }

  lemma HashCompatible(p: Pattern, q: Pattern, w: Word32)
    requires Agrees(p, HASH_MASK, w) && Matches(q, w)
    ensures Compatible(p, q)
  {
    hide And;
    AndLaws(w, And(p.mask, HASH_MASK), q.mask);
    AndLaws(And(p.mask, HASH_MASK), q.mask, w);
    AndLaws(w, q.mask, And(p.mask, HASH_MASK));
    AndLaws(And(w, q.mask), HASH_MASK, p.mask);
    AndLaws(p.mask, HASH_MASK, w);
  }

  lemma CoveredMatches(ps: seq<Pattern>, i: int, j: int, w: Word32)
    requires 0 <= i < |ps| && 0 <= j < |ps| && Within(ps[i].value, ps[i].mask)
    requires Agrees(ps[i], HASH_MASK, w) && Matches(ps[j], w) && Covered(ps, i, j)
    ensures Matches(ps[i], w)
  {
    var p, q := ps[i], ps[j];
    var inside, outside := And(p.mask, HASH_MASK), And(p.mask, Not(HASH_MASK));
    TwoSides(p.mask);
    hide And, Or, Not;
    AndOr(w, inside, outside);
    AndOr(p.value, inside, outside);
    AndLaws(outside, q.mask, w);
    AndLaws(w, q.mask, outside);
    AndLaws(p.value, p.mask, HASH_MASK);
  }

  lemma TwoSides(m: Word32)
    ensures Or(And(m, HASH_MASK), And(m, Not(HASH_MASK))) == m
  {
  }
}
