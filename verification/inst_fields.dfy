/** The operand fields of an instruction word. */
module InstFields {
  import opened Bits
  import opened Places

  datatype InstructionData = Data(inst: Word32, rd: Word32, rs1: Word32, rs2: Word32, imm: bv64)

  function Field(w: Word32, low: nat): Word32
    requires low < 32
  {
    W((w.bits >> low) & 0x1F)
  }

  lemma PlaceMarks()
    ensures Place(8) == W(0x100) && Place(16) == W(0x10000) && Place(24) == W(0x1000000)
  {
  }

  lemma FiveBits(k: nat)
    requires k < 32
    ensures Has(W(0x1F), k) <==> k < 5
  {
    PlaceMarks();
    match k
    case 0 => case 1 => case 2 => case 3 => case 4 => case 5 => case 6 => case 7 =>
    case 8 => case 9 => case 10 => case 11 => case 12 => case 13 => case 14 => case 15 =>
    case 16 => case 17 => case 18 => case 19 => case 20 => case 21 => case 22 => case 23 =>
    case 24 => case 25 => case 26 => case 27 => case 28 => case 29 => case 30 => case 31 =>
  }

  function Halve(x: bv32): bv32 { x >> 1 }

  function DownBy(x: bv32, n: nat): bv32 { if n == 0 then x else Halve(DownBy(x, n - 1)) }

  lemma HalveMeets(x: Word32, p: Word32)
    ensures And(W(Halve(x.bits)), p) != ZERO <==> And(x, Double(p)) != ZERO
  {
  }

  lemma {:induction false} DownBit(x: bv32, n: nat, k: nat)
    ensures Has(W(DownBy(x, n)), k) <==> Has(W(x), k + n)
    decreases n
  {
    hide And, Halve, Double;
    if n > 0 {
      HalveMeets(W(DownBy(x, n - 1)), Place(k));
      DownBit(x, n - 1, k + 1);
    }
  }

  lemma DownSeven(x: bv32)
    ensures DownBy(x, 7) == x >> 7
  {
    assert DownBy(x, 1) == x >> 1 && DownBy(x, 2) == x >> 2 && DownBy(x, 3) == x >> 3 && DownBy(x, 4) == x >> 4;
    assert DownBy(x, 5) == x >> 5 && DownBy(x, 6) == x >> 6 && DownBy(x, 7) == x >> 7;
  }

  lemma DownFifteen(x: bv32)
    ensures DownBy(x, 15) == x >> 15
  {
    DownSeven(x);
    assert DownBy(x, 8) == x >> 8 && DownBy(x, 9) == x >> 9 && DownBy(x, 10) == x >> 10 && DownBy(x, 11) == x >> 11;
    assert DownBy(x, 12) == x >> 12 && DownBy(x, 13) == x >> 13 && DownBy(x, 14) == x >> 14 && DownBy(x, 15) == x >> 15;
  }

  lemma DownTwenty(x: bv32)
    ensures DownBy(x, 20) == x >> 20
  {
    DownFifteen(x);
    assert DownBy(x, 16) == x >> 16 && DownBy(x, 17) == x >> 17 && DownBy(x, 18) == x >> 18 && DownBy(x, 19) == x >> 19;
    assert DownBy(x, 20) == x >> 20;
  }

  lemma FieldIs(w: Word32)
    ensures Field(w, 7) == And(W(DownBy(w.bits, 7)), W(0x1F)) && Field(w, 15) == And(W(DownBy(w.bits, 15)), W(0x1F))
    ensures Field(w, 20) == And(W(DownBy(w.bits, 20)), W(0x1F))
  {
    DownSeven(w.bits);
    DownFifteen(w.bits);
    DownTwenty(w.bits);
    hide DownBy;
  }

  lemma FieldBits(w: Word32, k: nat)
    requires k < 32
    ensures Has(Field(w, 7), k) <==> k < 5 && Has(w, 7 + k)
    ensures Has(Field(w, 15), k) <==> k < 5 && Has(w, 15 + k)
    ensures Has(Field(w, 20), k) <==> k < 5 && Has(w, 20 + k)
  {
    hide Has, And, Field, DownBy;
    FieldIs(w);
    FiveBits(k);
    HasAnd(W(DownBy(w.bits, 7)), W(0x1F), k);
    HasAnd(W(DownBy(w.bits, 15)), W(0x1F), k);
    HasAnd(W(DownBy(w.bits, 20)), W(0x1F), k);
    DownBit(w.bits, 7, k);
    DownBit(w.bits, 15, k);
    DownBit(w.bits, 20, k);
  }

  /** rd, rs1 and rs2 are bits 11..7, 19..15 and 24..20 of the word. */
  ghost predicate ReadsFields(d: InstructionData, w: Word32) {
    && d.inst == w
    && (forall k: nat :: k < 5 ==> (Has(d.rd, k) <==> Has(w, 7 + k)))
    && (forall k: nat :: k < 5 ==> (Has(d.rs1, k) <==> Has(w, 15 + k)))
    && (forall k: nat :: k < 5 ==> (Has(d.rs2, k) <==> Has(w, 20 + k)))
    && (forall k: nat :: 5 <= k < 32 ==> !Has(d.rd, k) && !Has(d.rs1, k) && !Has(d.rs2, k))
  }
}
