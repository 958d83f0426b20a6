/** The registered instruction patterns: lookup and scan agree on every word. */
module Registered {
  import opened Bits
  import opened Places
  import opened Decoder
  import opened PatternTexts
  import DecodeCache
  import InstFields

  /** `p` is what registering `text` puts into the list. */
  predicate Made(p: Pattern, text: string) {
    && (|text| == 16 || |text| == 32) && p.size == |text| / 8
    && p.mask == MaskUpTo(text, |text|) && p.value == ValueUpTo(text, |text|)
  }

  // ---- bits of the two words ----

  lemma {:induction false} MaskBit(text: string, n: nat, i: nat)
    requires i < n <= |text| <= 32
    ensures Has(MaskUpTo(text, n), i) <==> Digit(text[|text| - 1 - i])
    ensures Has(ValueUpTo(text, n), i) <==> text[|text| - 1 - i] == '1'
    decreases n
  {
    hide Has, Or, Place;
    HasSet(MaskUpTo(text, n - 1), n - 1, i);
    HasSet(ValueUpTo(text, n - 1), n - 1, i);
    if i < n - 1 { MaskBit(text, n - 1, i); } else { MaskEnds(text, n - 1); }
  }

  /** Nothing is fixed at or above place `n`. */
  lemma {:induction false} MaskAbove(text: string, n: nat, i: nat)
    requires n <= |text| <= 32 && n <= i < 32
    ensures !Has(MaskUpTo(text, n), i) && !Has(ValueUpTo(text, n), i)
    decreases n
  {
    hide Has, Or, Place;
    if n == 0 {
      ZeroHas(i);
    } else {
      MaskAbove(text, n - 1, i);
      HasSet(MaskUpTo(text, n - 1), n - 1, i);
      HasSet(ValueUpTo(text, n - 1), n - 1, i);
    }
  }

  lemma MaskEnds(text: string, n: nat)
    requires n < |text| <= 32
    ensures !Has(MaskUpTo(text, n), n) && !Has(ValueUpTo(text, n), n)
  {
    MaskAbove(text, n, n);
  }

  lemma HashBit(i: nat)
    requires i < 32
    ensures Has(HASH_MASK, i) <==> !Left(i)
    ensures Has(Not(HASH_MASK), i) <==> Left(i)
  {
    assert Place(8) == W(0x100);
    assert Place(16) == W(0x10000);
    assert Place(24) == W(0x1000000);
    match i
    case 0 => case 1 => case 2 => case 3 => case 4 => case 5 => case 6 => case 7 =>
    case 8 => case 9 => case 10 => case 11 => case 12 => case 13 => case 14 => case 15 =>
    case 16 => case 17 => case 18 => case 19 => case 20 => case 21 => case 22 => case 23 =>
    case 24 => case 25 => case 26 => case 27 => case 28 => case 29 => case 30 => case 31 =>
  }

  lemma NoBit(a: Word32)
    requires forall i :: 0 <= i < 32 ==> !Has(a, i)
    ensures a == ZERO
  {
    if a != ZERO { SomeBit(a); }
  }

  lemma {:induction false} MadeFormed(p: Pattern, text: string)
    requires Made(p, text)
    ensures Formed(p)
  {
    ReadUpTo(text, |text|);
    BelowSixteen();
  }

  lemma {:induction false} ReadUpTo(text: string, n: nat)
    requires n <= |text| <= 32
    ensures Reads(text, n, MaskUpTo(text, n), ValueUpTo(text, n))
  {
    hide Reads, Or, Place;
    if n == 0 {
      NothingRead(text);
    } else {
      ReadUpTo(text, n - 1);
      ReadOneMore(text, n - 1, MaskUpTo(text, n - 1), ValueUpTo(text, n - 1));
    }
  }

  // ---- when two patterns get in each other's way ----

  lemma PlainInside(p: Pattern, text: string)
    requires Made(p, text) && |text| == 32 && Plain(text)
    ensures And(p.mask, Not(HASH_MASK)) == ZERO
  {
    hide Has, And, Not, MaskUpTo, ValueUpTo;
    forall i | 0 <= i < 32 ensures !Has(And(p.mask, Not(HASH_MASK)), i) {
      HasAnd(p.mask, Not(HASH_MASK), i);
      HashBit(i);
      MaskBit(text, 32, i);
    }
    NoBit(And(p.mask, Not(HASH_MASK)));
  }

  lemma ClashApart(p: Pattern, s: string, q: Pattern, t: string)
    requires Made(p, s) && Made(q, t) && |s| == |t| == 32 && Clash(s, t)
    ensures !Compatible(p, q)
  {
    hide Has, And, Not, MaskUpTo, ValueUpTo;
    var k: nat :| k < 32 && !Left(31 - k) && Differ(s, t, k);
    var i := 31 - k;
    HashBit(i);
    MaskBit(s, 32, i);
    MaskBit(t, 32, i);
    HasAnd(p.value, HASH_MASK, i);
    HasAnd(q.value, HASH_MASK, i);
    HasAnd(And(p.value, HASH_MASK), q.mask, i);
    HasAnd(And(q.value, HASH_MASK), p.mask, i);
  }

  /** Every pattern was made from one of the texts. */
  ghost predicate Drawn(ps: seq<Pattern>, texts: seq<string>) {
    forall i :: 0 <= i < |ps| ==> HasText(ps[i], texts)
  }

  ghost predicate HasText(p: Pattern, texts: seq<string>) { exists t :: t in texts && Made(p, t) }

  lemma MadeFrom(ps: seq<Pattern>, texts: seq<string>, i: nat) returns (t: string)
    requires Drawn(ps, texts) && i < |ps|
    ensures t in texts && Made(ps[i], t)
  {
    hide Made;
    assert HasText(ps[i], texts);
    t :| t in texts && Made(ps[i], t);
  }

  /** A list made of safe texts, in any order and as often as you like, has no shadows. */
  lemma SafeNoShadow(ps: seq<Pattern>, texts: seq<string>)
    requires Safe(texts) && Drawn(ps, texts)
    ensures AllFormed(ps) && NoShadow(ps)
  {
    hide Has, And, Not, MaskUpTo, ValueUpTo, Beats, Compatible, Covered, Plain, Clash, Formed;
    hide Made;
    forall i | 0 <= i < |ps| ensures Formed(ps[i]) {
      var s := MadeFrom(ps, texts, i);
      MadeFormed(ps[i], s);
    }
    forall i, j | 0 <= i < |ps| && 0 <= j < |ps| && ps[i].size != 2 && ps[j].size != 2 && Compatible(ps[i], ps[j])
      ensures Covered(ps, i, j)
    {
      var s := MadeFrom(ps, texts, i);
      var t := MadeFrom(ps, texts, j);
      MadeLong(ps[i], s);
      MadeLong(ps[j], t);
      CoveredBy(ps, i, s, j, t);
    }
  }

  lemma MadeLong(p: Pattern, text: string)
    requires Made(p, text) && p.size != 2
    ensures |text| == 32
  {
    hide MaskUpTo, ValueUpTo;
  }

  lemma CoveredBy(ps: seq<Pattern>, i: nat, s: string, j: nat, t: string)
    requires i < |ps| && j < |ps| && Made(ps[i], s) && Made(ps[j], t) && |s| == |t| == 32
    requires s == t || Plain(s) || Clash(s, t)
    requires Compatible(ps[i], ps[j])
    ensures Covered(ps, i, j)
  {
    hide Has, And, Not, MaskUpTo, ValueUpTo, Compatible, Plain, Clash;
    if s == t {
      AndLaws(Not(HASH_MASK), ps[i].mask, ps[i].mask);
      OrZero(ps[i].mask);
    } else if Plain(s) {
      PlainInside(ps[i], s);
      OrZero(ps[i].value);
      OrZero(ps[j].value);
      OrZero(ps[j].mask);
      AndLaws(ZERO, ps[j].mask, ZERO);
    } else {
      ClashApart(ps[i], s, ps[j], t);
    }
  }

  /** The shipped decoder is right about every word: whatever of the registered texts a build
      registers, a decode finds the first of the patterns with the most fixed bits that the word
      matches, and it is valid exactly when some pattern matches. */
  lemma RegisteredDecodes(ps: seq<Pattern>, pc: int, w: Word32)
    requires Drawn(ps, REGISTERED)
    ensures Find(ps, w) == Scan(ps, w)
    ensures DecodeCache.Decoded(ps, pc, w).inst == Scan(ps, w)
    ensures DecodeCache.Decoded(ps, pc, w).valid <==> Scan(ps, w) >= 0
  {
    hide Find, Scan, Safe, Drawn, InstFields.Field;
    RegisteredSafe();
    SafeNoShadow(ps, REGISTERED);
    NoShadowDecodes(ps, w);
  }
}
