/** Carry-less multiplication: the shift-and-xor loops against the product of polynomials over GF(2). */
module Clmul {
  import opened Words
  import opened WordBits
  import opened WordMeaning

  // ---- the product ----

  /** The term of x^k that comes from x^i of `b`. */
  predicate Term(a: Word, b: Word, k: nat, i: nat) { Bit(b, i) && i <= k && Bit(a, k - i) }

  /** The sum over GF(2) of the terms from the first `n` coefficients of `b`. */
  function Part(a: Word, b: Word, k: nat, n: nat): bool {
    if n == 0 then false else Part(a, b, k, n - 1) != Term(a, b, k, n - 1)
  }

  /** The coefficient of x^k in the product of the two polynomials. */
  function Coef(a: Word, b: Word, k: nat): bool { Part(a, b, k, k + 1) }

  /** Coefficients of `b` from 64 on, and terms past x^k, contribute nothing. */
  lemma {:induction false} PartSettles(a: Word, b: Word, k: nat, m: nat, n: nat)
    requires m <= n && (m >= 64 || m > k)
    ensures Part(a, b, k, n) == Part(a, b, k, m)
    decreases n
  {
    hide Bit;
    if n > m {
      PartSettles(a, b, k, m, n - 1);
      if m >= 64 { NoBit(b, n - 1); }
    }
  }

  lemma LoopCoef(a: Word, b: Word, k: nat)
    ensures Part(a, b, k, 64) == Coef(a, b, k)
  {
    hide Part;
    if k + 1 <= 64 { PartSettles(a, b, k, k + 1, 64); } else { PartSettles(a, b, k, 64, k + 1); }
  }

  /** The sum of the terms `k-n+1 .. k`, the last ones first. */
  function Tail(a: Word, b: Word, k: nat, n: nat): bool
    requires n <= k + 1
  {
    if n == 0 then false else Tail(a, b, k, n - 1) != Term(a, b, k, k + 1 - n)
  }

  lemma {:induction false} TailRest(a: Word, b: Word, k: nat, n: nat)
    requires n <= k + 1
    ensures Coef(a, b, k) == (Part(a, b, k, k + 1 - n) != Tail(a, b, k, n))
    decreases n
  {
    hide Term;
    if n > 0 { TailRest(a, b, k, n - 1); }
  }

  lemma {:induction false} PartTail(a: Word, b: Word, k: nat, n: nat)
    requires n <= k + 1
    ensures Part(b, a, k, n) == Tail(a, b, k, n)
    decreases n
  {
    hide Bit;
    if n > 0 { PartTail(a, b, k, n - 1); }
  }

  /** The product does not depend on the order of the factors. */
  lemma CoefCommutes(a: Word, b: Word, k: nat)
    ensures Coef(a, b, k) == Coef(b, a, k)
  {
    hide Term, Part, Tail;
    TailRest(a, b, k, k + 1);
    PartTail(a, b, k, k + 1);
    PartEmpty(a, b, k);
  }

  /** The product distributes over the sum, which is the exclusive or. */
  lemma {:induction false} PartSum(a: Word, b: Word, c: Word, k: nat, n: nat)
    ensures Part(a, BitXor(b, c), k, n) <==> Part(a, b, k, n) != Part(a, c, k, n)
    decreases n
  {
    hide Bit, BitXor;
    if n > 0 {
      PartSum(a, b, c, k, n - 1);
      XorBit(b, c, n - 1);
    }
  }

  lemma CoefSum(a: Word, b: Word, c: Word, k: nat)
    ensures Coef(a, BitXor(b, c), k) <==> Coef(a, b, k) != Coef(a, c, k)
  {
    hide Part, BitXor;
    PartSum(a, b, c, k, k + 1);
  }

  lemma {:induction false} PartPower(a: Word, j: nat, k: nat, n: nat)
    requires j < 64
    ensures Part(a, W(One(j)), k, n) <==> j < n && j <= k && Bit(a, k - j)
    decreases n
  {
    hide Bit, One;
    if n > 0 {
      PartPower(a, j, k, n - 1);
      if n - 1 < 64 { OneBits(j, n - 1); } else { NoBit(W(One(j)), n - 1); }
    }
  }

  /** Multiplying by x^j moves every coefficient up by j; with the sum this says what every product is. */
  lemma CoefPower(a: Word, j: nat, k: nat)
    requires j < 64
    ensures Coef(a, W(One(j)), k) <==> j <= k && Bit(a, k - j)
  {
    hide Part, Bit, One;
    PartPower(a, j, k, k + 1);
  }

  lemma PartEmpty(a: Word, b: Word, k: nat)
    ensures !Part(a, b, k, 0)
  {
  }

  /** The product has degree at most 126, so 127 bits hold it. */
  lemma {:induction false} CoefDegree(a: Word, b: Word, k: nat, n: nat)
    requires k >= 127
    ensures !Part(a, b, k, n)
    decreases n
  {
    hide Bit;
    if n > 0 {
      CoefDegree(a, b, k, n - 1);
      if n - 1 >= 64 {
        NoBit(b, n - 1);
      } else {
        NoBit(a, k - (n - 1));
      }
    }
  }

  // ---- the loops ----

  /** 64 coefficients of the product from x^shift on: 0, 64 and 63 are the three instructions. */
  ghost predicate Slice(a: Word, b: Word, shift: nat, out: Word) {
    forall k: nat :: k < 64 ==> (Bit(out, k) <==> Coef(a, b, shift + k))
  }

  /** The same after `n` rounds of a loop. */
  ghost predicate SliceAfter(a: Word, b: Word, shift: nat, n: nat, out: Word) {
    forall k: nat :: k < 64 ==> (Bit(out, k) <==> Part(a, b, shift + k, n))
  }

  lemma SliceStarts(a: Word, b: Word, shift: nat)
    ensures SliceAfter(a, b, shift, 0, ZERO)
    ensures shift >= 64 ==> SliceAfter(a, b, shift, 1, ZERO)
  {
    hide Bit;
    forall k: nat | k < 64
      ensures !Bit(ZERO, k) && !Part(a, b, shift + k, 0) && (shift >= 64 ==> !Part(a, b, shift + k, 1))
    {
      ZeroBit(k);
      if shift >= 64 { NoBit(a, shift + k); }
    }
  }

  /** `a`, moved so that its constant term lands on x^i of the product, seen from x^shift on. */
  ghost predicate Moved(a: Word, shift: nat, i: nat, moved: Word) {
    forall k: nat :: k < 64 ==> (Bit(moved, k) <==> i <= shift + k && Bit(a, shift + k - i))
  }

  /** One round: `rs1` moved to where x^i of `rs2` puts it is added if that coefficient is there. */
  lemma SliceStep(a: Word, b: Word, shift: nat, i: nat, out: Word, moved: Word)
    requires SliceAfter(a, b, shift, i, out)
    requires Moved(a, shift, i, moved)
    ensures SliceAfter(a, b, shift, i + 1, if Bit(b, i) then BitXor(out, moved) else out)
  {
    hide Bit, BitXor;
    var next := if Bit(b, i) then BitXor(out, moved) else out;
    forall k: nat | k < 64 ensures Bit(next, k) <==> Part(a, b, shift + k, i + 1) {
      XorBit(out, moved, k);
    }
  }

  lemma SliceEnds(a: Word, b: Word, shift: nat, out: Word)
    requires SliceAfter(a, b, shift, 64, out)
    ensures Slice(a, b, shift, out)
  {
    hide Bit, Part, Coef;
    forall k: nat | k < 64 ensures Bit(out, k) <==> Coef(a, b, shift + k) { LoopCoef(a, b, shift + k); }
  }

  lemma MovedUp(a: Word, i: nat)
    ensures Moved(a, 0, i, Up(a, i))
  {
    hide Bit, Up;
    forall k: nat | k < 64 ensures Bit(Up(a, i), k) <==> i <= 0 + k && Bit(a, 0 + k - i) { UpBit(a, i, k); }
  }

  lemma MovedDown(a: Word, shift: nat, i: nat)
    requires i <= shift
    ensures Moved(a, shift, i, Down(a, shift - i))
  {
    hide Bit, Down;
    var d := Down(a, shift - i);
    forall k: nat | k < 64 ensures Bit(d, k) <==> i <= shift + k && Bit(a, shift + k - i) {
      DownBit(a, shift - i, k);
    }
  }

  /** The low half of the product. */
  method ExecClmul(rs1: Word, rs2: Word) returns (out: Word)
    ensures Slice(rs1, rs2, 0, out)
  {
    hide Bit, BitXor, Slice, SliceAfter, Moved, Up;
    out := ZERO;
    SliceStarts(rs1, rs2, 0);
    for i := 0 to 64
      invariant SliceAfter(rs1, rs2, 0, i, out)
    {
      MovedUp(rs1, i);
      SliceStep(rs1, rs2, 0, i, out, Up(rs1, i));
      out := if Bit(rs2, i) then BitXor(out, Up(rs1, i)) else out;
    }
    SliceEnds(rs1, rs2, 0, out);
  }

  /** The high half. */
  method ExecClmulh(rs1: Word, rs2: Word) returns (out: Word)
    ensures Slice(rs1, rs2, 64, out)
  {
    hide Bit, BitXor, Slice, SliceAfter, Moved, Down;
    out := ZERO;
    SliceStarts(rs1, rs2, 64);
    for i := 1 to 64
      invariant SliceAfter(rs1, rs2, 64, i, out)
    {
      MovedDown(rs1, 64, i);
      SliceStep(rs1, rs2, 64, i, out, Down(rs1, 64 - i));
      out := if Bit(rs2, i) then BitXor(out, Down(rs1, 64 - i)) else out;
    }
    SliceEnds(rs1, rs2, 64, out);
  }

  /** Bits 126 to 63, the reversed multiply. */
  method ExecClmulr(rs1: Word, rs2: Word) returns (out: Word)
    ensures Slice(rs1, rs2, 63, out)
  {
    hide Bit, BitXor, Slice, SliceAfter, Moved, Down;
    out := ZERO;
    SliceStarts(rs1, rs2, 63);
    for i := 0 to 64
      invariant SliceAfter(rs1, rs2, 63, i, out)
    {
      MovedDown(rs1, 63, i);
      SliceStep(rs1, rs2, 63, i, out, Down(rs1, 63 - i));
      out := if Bit(rs2, i) then BitXor(out, Down(rs1, 63 - i)) else out;
    }
    SliceEnds(rs1, rs2, 63, out);
  }

  /** The results do not depend on the order of the operands. */
  lemma Commutes(a: Word, b: Word, shift: nat, x: Word, y: Word)
    requires Slice(a, b, shift, x) && Slice(b, a, shift, y)
    ensures x == y
  {
    hide Bit, Coef;
    forall k: nat | k < 64 ensures Bit(x, k) <==> Bit(y, k) { CoefCommutes(a, b, shift + k); }
    SameBits(x, y);
  }

  class Registers {
    var gpr: seq<Word>

    /** `rd` gets the low half of the product of `rs1` and `rs2`; no other register changes. */
    method Clmul(rd: nat, rs1: nat, rs2: nat)
      requires |gpr| == 32 && rd < 32 && rs1 < 32 && rs2 < 32
      modifies this
      ensures |gpr| == 32 && gpr == old(gpr)[rd := gpr[rd]] && Slice(old(gpr)[rs1], old(gpr)[rs2], 0, gpr[rd])
    {
      hide Slice;
      var out := ExecClmul(gpr[rs1], gpr[rs2]);
      gpr := gpr[rd := out];
    }

    method Clmulh(rd: nat, rs1: nat, rs2: nat)
      requires |gpr| == 32 && rd < 32 && rs1 < 32 && rs2 < 32
      modifies this
      ensures |gpr| == 32 && gpr == old(gpr)[rd := gpr[rd]] && Slice(old(gpr)[rs1], old(gpr)[rs2], 64, gpr[rd])
    {
      hide Slice;
      var out := ExecClmulh(gpr[rs1], gpr[rs2]);
      gpr := gpr[rd := out];
    }

    method Clmulr(rd: nat, rs1: nat, rs2: nat)
      requires |gpr| == 32 && rd < 32 && rs1 < 32 && rs2 < 32
      modifies this
      ensures |gpr| == 32 && gpr == old(gpr)[rd := gpr[rd]] && Slice(old(gpr)[rs1], old(gpr)[rs2], 63, gpr[rd])
    {
      hide Slice;
      var out := ExecClmulr(gpr[rs1], gpr[rs2]);
      gpr := gpr[rd := out];
    }
  }
}
