/** Traps, returns and CSRs, bit by bit. */
module TrapWords {
  import opened Wrappers
  import opened Powers
  import opened Words
  import opened WordBits
  import opened WordMeaning
  import opened HartState
  import opened HartDevice

  // ---- one field ----

  lemma SetBit(s: Word, j: nat, on: bool, k: nat)
    requires j < 64 && k < 64
    ensures Bit(SetFlag(s, W(One(j)), on), k) <==> if k == j then on else Bit(s, k)
  {
    hide Bit, BitAnd, BitOr, Not, One;
    OneBits(j, k);
    OrBit(s, W(One(j)), k);
    AndBit(s, Not(W(One(j))), k);
    NotBit(W(One(j)), k);
  }

  /** Where the fields of mstatus are. */
  lemma FieldPlaces()
    ensures SIE == W(One(1)) && MIE == W(One(3)) && SPIE == W(One(5)) && MPIE == W(One(7)) && SPP == W(One(8))
    ensures MPP_LOW == W(One(11)) && MPP_HIGH == W(One(12)) && MPRV == W(One(17)) && TSR == W(One(22))
  {
    Ones();
  }

  lemma FlagBit(s: Word, j: nat)
    ensures Flag(s, W(One(j))) <==> Bit(s, j)
  {
    hide BitAnd, One;
  }

  // ---- status ----

  /** A trap into S: SPIE (5) from SIE (1), SIE cleared, SPP (8) says whether it came from S. */
  lemma StatusTrapS(s: Word, prev: Mode, k: nat)
    requires k < 64
    ensures Bit(StatusIntoS(s, prev), k) <==>
      if k == 5 then Bit(s, 1) else if k == 1 then false else if k == 8 then prev != User else Bit(s, k)
  {
    hide Bit, Flag, SetFlag, One;
    FieldPlaces();
    FlagBit(s, 1);
    var s1 := SetFlag(s, W(One(5)), Bit(s, 1));
    SetBit(s, 5, Bit(s, 1), k);
    SetBit(s1, 1, false, k);
    SetBit(SetFlag(s1, W(One(1)), false), 8, prev != User, k);
  }

  /** Into M: MPIE (7) from MIE (3), MIE cleared, MPP (12, 11) is 3 for M, 1 for S, 0 for U. */
  lemma StatusTrapM(s: Word, prev: Mode, k: nat)
    requires k < 64
    ensures Bit(StatusIntoM(s, prev), k) <==>
      if k == 7 then Bit(s, 3) else if k == 3 then false
      else if k == 11 then prev != User else if k == 12 then prev == Machine else Bit(s, k)
  {
    hide Bit, Flag, SetFlag, One;
    FieldPlaces();
    FlagBit(s, 3);
    var s1 := SetFlag(s, W(One(7)), Bit(s, 3));
    var s2 := SetFlag(s1, W(One(3)), false);
    SetBit(s, 7, Bit(s, 3), k);
    SetBit(s1, 3, false, k);
    SetBit(s2, 11, prev != User, k);
    SetBit(SetFlag(s2, W(One(11)), prev != User), 12, prev == Machine, k);
  }

  /** MRET: MIE from MPIE, MPIE set, MPP cleared, MPRV (17) kept if MPP's high bit was set. */
  lemma StatusMRet(h: State, k: nat)
    requires k < 64
    ensures var s := h.status;
      Bit(MRet(h).status, k) <==>
      if k == 3 then Bit(s, 7) else if k == 7 then true else if k == 11 || k == 12 then false
      else if k == 17 then Bit(s, 17) && Bit(s, 12) else Bit(s, k)
    ensures MRet(h).pc == h.csrs[0x341] && MRet(h).csrs == h.csrs
    ensures MRet(h).mode == if Bit(h.status, 12) then (if Bit(h.status, 11) then Machine else h.mode)
      else if Bit(h.status, 11) then Supervisor else User
  {
    hide Bit, Flag, SetFlag, One;
    FieldPlaces();
    var s := h.status;
    FlagBit(s, 11);
    FlagBit(s, 12);
    var s1 := if Bit(s, 12) then s else SetFlag(s, W(One(17)), false);
    FlagBit(s1, 7);
    SetBit(s, 17, false, 7);
    SetBit(s, 17, false, k);
    var s2 := SetFlag(s1, W(One(3)), Bit(s1, 7));
    var s3 := SetFlag(s2, W(One(7)), true);
    SetBit(s1, 3, Bit(s1, 7), k);
    SetBit(s2, 7, true, k);
    SetBit(s3, 11, false, k);
    SetBit(SetFlag(s3, W(One(11)), false), 12, false, k);
  }

  /** SRET: SIE from SPIE, SPIE set, SPP cleared, MPRV kept if SPP was clear. */
  lemma StatusSRet(h: State, k: nat)
    requires k < 64
    ensures var s := h.status;
      Bit(SRet(h).status, k) <==>
      if k == 1 then Bit(s, 5) else if k == 5 then true else if k == 8 then false
      else if k == 17 then Bit(s, 17) && !Bit(s, 8) else Bit(s, k)
    ensures SRet(h).pc == h.csrs[0x141] && SRet(h).csrs == h.csrs
    ensures SRet(h).mode == if Bit(h.status, 8) then Supervisor else User
  {
    hide Bit, Flag, SetFlag, One;
    FieldPlaces();
    var s := h.status;
    FlagBit(s, 8);
    var s1 := if Bit(s, 8) then SetFlag(s, W(One(17)), false) else s;
    FlagBit(s1, 5);
    SetBit(s, 17, false, 5);
    SetBit(s, 17, false, k);
    var s2 := SetFlag(s1, W(One(1)), Bit(s1, 5));
    SetBit(s1, 1, Bit(s1, 5), k);
    SetBit(s2, 5, true, k);
    SetBit(SetFlag(s2, W(One(5)), true), 8, false, k);
  }

  // ---- the handler's address ----

  /** `base` is `tvec` with its two low bits cleared. */
  ghost predicate IsBase(tvec: Word, base: Word) { forall k: nat :: k < 64 ==> (Bit(base, k) <==> 2 <= k && Bit(tvec, k)) }

  lemma ModeMask(k: nat)
    requires k < 64
    ensures Bit(MODE_MASK, k) <==> k < 2
  {
    Ones();
    match k
    case 0 => case 1 => case 2 => case 3 => case 4 => case 5 => case 6 => case 7 =>
    case 8 => case 9 => case 10 => case 11 => case 12 => case 13 => case 14 => case 15 =>
    case 16 => case 17 => case 18 => case 19 => case 20 => case 21 => case 22 => case 23 =>
    case 24 => case 25 => case 26 => case 27 => case 28 => case 29 => case 30 => case 31 =>
    case 32 => case 33 => case 34 => case 35 => case 36 => case 37 => case 38 => case 39 =>
    case 40 => case 41 => case 42 => case 43 => case 44 => case 45 => case 46 => case 47 =>
    case 48 => case 49 => case 50 => case 51 => case 52 => case 53 => case 54 => case 55 =>
    case 56 => case 57 => case 58 => case 59 => case 60 => case 61 => case 62 => case 63 =>
  }

  lemma BaseIs(tvec: Word, base: Word)
    requires IsBase(tvec, base)
    ensures base == BitAnd(tvec, Not(MODE_MASK))
  {
    hide Bit, BitAnd, Not;
    forall k: nat | k < 64 ensures Bit(base, k) <==> Bit(BitAnd(tvec, Not(MODE_MASK)), k) {
      AndBit(tvec, Not(MODE_MASK), k);
      NotBit(MODE_MASK, k);
      ModeMask(k);
    }
    SameBits(base, BitAnd(tvec, Not(MODE_MASK)));
  }

  lemma PlusZero(a: Word)
    ensures Plus(a, ZERO) == a
  {
  }

  lemma LowestFlag(a: Word)
    ensures Flag(a, ONE) <==> Bit(a, 0)
  {
    LowestBit(a);
  }

  /** Where a trap goes: to S exactly when it comes from below M and its cause is delegated, by
      medeleg (0x302) for an exception and mideleg (0x303) for an interrupt; to the base in stvec (0x105) or
      mtvec (0x305), and four bytes further for each cause number exactly for an interrupt when bit 0 of that
      register is set. */
  lemma TrapEntry(h: State, cause: nat, tval: Word, interrupt: bool, base: Word)
    requires cause < 64
    requires
      var s := h.mode != Machine && Bit(h.csrs[if interrupt then 0x303 else 0x302], cause);
      IsBase(h.csrs[if s then 0x105 else 0x305], base)
    ensures
      var t := Trap(h, cause, tval, interrupt);
      var s := h.mode != Machine && Bit(h.csrs[if interrupt then 0x303 else 0x302], cause);
      t.mode == (if s then Supervisor else Machine)
      && t.pc == if interrupt && Bit(h.csrs[if s then 0x105 else 0x305], 0) then Plus(base, ImmWord(4 * cause)) else base
  {
    hide Bit, BitAnd, BitOr, Plus, ImmWord, Flag, StatusIntoS, StatusIntoM, Not, CauseWord, IsBase, One;
    FlagBit(h.csrs[if interrupt then 0x303 else 0x302], cause);
    var s := h.mode != Machine && Bit(h.csrs[if interrupt then 0x303 else 0x302], cause);
    var tvec := h.csrs[if s then 0x105 else 0x305];
    BaseIs(tvec, base);
    LowestFlag(tvec);
    PlusZero(base);
  }

  /** What a trap records, by register number: the interrupted pc in sepc (0x141) or mepc (0x341), the trap value in
      stval (0x143) or mtval (0x343), the cause in scause (0x142) or mcause (0x342) with bit 63 for an interrupt. */
  lemma TrapCause(h: State, cause: nat, tval: Word, interrupt: bool, k: nat)
    requires cause < 64 && k < 64
    ensures
      var t := Trap(h, cause, tval, interrupt);
      var base := if t.mode == Supervisor then 0x140 else 0x340;
      t.csrs[base + 1] == h.pc && t.csrs[base + 3] == tval
      && (Bit(t.csrs[base + 2], k) <==> if k == 63 then interrupt else Bit(ImmWord(cause), k))
  {
    hide Bit, BitAnd, BitOr, ImmWord, Flag, StatusIntoS, StatusIntoM, EntryPc, Has;
    OrBit(ImmWord(cause), if interrupt then INTERRUPT_BIT else ZERO, k);
    TopAlone(k);
    ZeroBit(k);
    TopClear(cause);
  }

  lemma TopClear(cause: nat)
    requires cause < 64
    ensures !Bit(ImmWord(cause), 63)
  {
    hide Bit, ImmWord;
    ImmBit(cause, 63);
    assert Pow2(6) == 64;
    QuotientIs(cause, Pow2(63), 0, cause) by { BigPower(57); }
  }

  lemma {:induction false} BigPower(n: nat)
    ensures Pow2(6 + n) >= 64
  {
    assert Pow2(6) == 64;
    if n > 0 { BigPower(n - 1); }
  }

  lemma AlignedBase(x: Word, low: Word)
    requires x == W(0x8020_0000) && (low == ZERO || low == ONE)
    ensures IsBase(BitOr(x, low), x)
  {
    hide Bit, BitOr, BitAnd;
    forall k: nat | k < 64 ensures Bit(x, k) <==> 2 <= k && Bit(BitOr(x, low), k) {
      OrBit(x, low, k);
      OneBit(k);
      ZeroBit(k);
      AlignedLow(k);
    }
  }

  lemma AlignedLow(k: nat)
    requires k < 64
    ensures Bit(W(0x8020_0000), k) ==> 2 <= k
  {
    LowBitsClear();
    if k == 0 { OneFirst(); } else if k == 1 { OneSecond(); }
  }

  lemma OneSecond()
    ensures One(1) == 2
  {
  }

  lemma LowBitsClear()
    ensures BitAnd(W(0x8020_0000), W(1)) == ZERO && BitAnd(W(0x8020_0000), W(2)) == ZERO
  {
  }

  /** At work: an ECALL from U (cause 8), delegated, with handlers at 0x80200000, vectored or not. */
  lemma UserCall(h: State, vectored: bool)
    requires h.mode == User && Bit(h.csrs[CSR_MEDELEG], 8)
    requires h.csrs[CSR_STVEC] == BitOr(W(0x8020_0000), if vectored then ONE else ZERO)
    ensures Trap(h, 8, ZERO, false).pc == W(0x8020_0000) && Trap(h, 8, ZERO, false).mode == Supervisor
  {
    hide Bit, BitOr, Trap, IsBase;
    AlignedBase(W(0x8020_0000), if vectored then ONE else ZERO);
    TrapEntry(h, 8, ZERO, false, W(0x8020_0000));
  }

  /** When an interrupt is ready: pending and enabled, and below M or, in M, with MIE (3) set; a delegated one is one
      of the three supervisor interrupts, in U or, in S, with SIE (1) set. */
  lemma ReadyBits(h: State, irq: nat)
    requires irq in [11, 9, 3, 1, 7, 5]
    ensures Ready(h, irq) <==>
      (Bit(h.ip, irq) && Bit(h.ie, irq)
       && if Bit(h.csrs[0x303], irq)
          then (irq == 1 || irq == 5 || irq == 9) && (h.mode == User || (h.mode == Supervisor && Bit(h.status, 1)))
          else h.mode != Machine || Bit(h.status, 3))
  {
    hide Bit, Flag, One;
    FieldPlaces();
    FlagBit(h.ip, irq);
    FlagBit(h.ie, irq);
    FlagBit(h.csrs[0x303], irq);
    FlagBit(h.status, 1);
    FlagBit(h.status, 3);
    FlagBit(SE_MASK, irq);
    Masks(irq);
  }

  // ---- the CSR window ----

  predicate Supervised(k: nat) { k == 1 || k == 5 || k == 9 }

  lemma Masks(k: nat)
    requires k < 64
    ensures Bit(SE_MASK, k) <==> Supervised(k)
    ensures Bit(LOW_16, k) <==> k < 16
  {
    Ones();
    match k
    case 0 => case 1 => case 2 => case 3 => case 4 => case 5 => case 6 => case 7 =>
    case 8 => case 9 => case 10 => case 11 => case 12 => case 13 => case 14 => case 15 =>
    case 16 => case 17 => case 18 => case 19 => case 20 => case 21 => case 22 => case 23 =>
    case 24 => case 25 => case 26 => case 27 => case 28 => case 29 => case 30 => case 31 =>
    case 32 => case 33 => case 34 => case 35 => case 36 => case 37 => case 38 => case 39 =>
    case 40 => case 41 => case 42 => case 43 => case 44 => case 45 => case 46 => case 47 =>
    case 48 => case 49 => case 50 => case 51 => case 52 => case 53 => case 54 => case 55 =>
    case 56 => case 57 => case 58 => case 59 => case 60 => case 61 => case 62 => case 63 =>
  }

  lemma MergedBit(before: Word, after: Word, mask: Word, k: nat)
    requires k < 64
    ensures Bit(Merged(before, after, mask), k) <==> if Bit(mask, k) then Bit(after, k) else Bit(before, k)
  {
    hide Bit, BitAnd, BitOr, Not;
    OrBit(BitAnd(before, Not(mask)), BitAnd(after, mask), k);
    AndBit(before, Not(mask), k);
    NotBit(mask, k);
    AndBit(after, mask, k);
  }

  /** mie (0x304) and mip (0x344) take the low sixteen bits; sie (0x104) and sip (0x144) take the three
      supervisor bits of them, and show just those. */
  lemma EnableWindows(h: State, val: Word, k: nat)
    requires k < 64
    ensures Bit(CsrWrite(h, 0x304, val).ie, k) <==> k < 16 && Bit(val, k)
    ensures Bit(CsrWrite(h, 0x344, val).ip, k) <==> k < 16 && Bit(val, k)
    ensures Bit(CsrWrite(h, 0x104, val).ie, k) <==> k < 16 && Bit(if Supervised(k) then val else h.ie, k)
    ensures Bit(CsrWrite(h, 0x144, val).ip, k) <==> k < 16 && Bit(if Supervised(k) then val else h.ip, k)
    ensures Bit(CsrRead(h, 0x104), k) <==> Supervised(k) && Bit(h.ie, k)
    ensures Bit(CsrRead(h, 0x144), k) <==> Supervised(k) && Bit(h.ip, k)
    ensures CsrRead(h, 0x304) == h.ie && CsrRead(h, 0x344) == h.ip
  {
    hide Bit, BitAnd, Merged;
    Masks(k);
    MergedBit(h.ie, val, SE_MASK, k);
    MergedBit(h.ip, val, SE_MASK, k);
    AndBit(val, LOW_16, k);
    AndBit(Merged(h.ie, val, SE_MASK), LOW_16, k);
    AndBit(Merged(h.ip, val, SE_MASK), LOW_16, k);
    AndBit(h.ie, SE_MASK, k);
    AndBit(h.ip, SE_MASK, k);
  }

  /** The register another number shows: cycle, instret and the counters are views of the machine's. */
  predicate Shadow(csr: nat) { csr == 0xC00 || csr == 0xC02 || 0xC03 <= csr <= 0xC1F }

  predicate Special(csr: nat) {
    csr in [0x300, 0x100, 0x104, 0x144, 0x304, 0x344] || ReadOnlyId(csr)
  }

  /** A plain register reads what was written; one that only shows another does not change at all; the
      identification registers ignore the write. No other register changes. (The floating-point and time compare
      registers are not part of this model.) */
  lemma CsrPlain(h: State, csr: nat, val: Word)
    requires csr < CSR_COUNT && csr !in [0x001, 0x002, 0x003, 0x14D]
    ensures !Special(csr) && !Shadow(csr) ==> CsrRead(CsrWrite(h, csr, val), csr) == val
    ensures Shadow(csr) ==> CsrRead(CsrWrite(h, csr, val), csr) == CsrRead(h, csr)
    ensures ReadOnlyId(csr) ==> CsrWrite(h, csr, val) == h
    ensures forall n :: 0 <= n < CSR_COUNT && n != csr ==> CsrWrite(h, csr, val).csrs[n] == h.csrs[n]
    ensures !Special(csr) ==> var w := CsrWrite(h, csr, val);
      w.status == h.status && w.ie == h.ie && w.ip == h.ip && w.pc == h.pc && w.mode == h.mode
  {
    hide Merged, BitAnd;
  }
}
