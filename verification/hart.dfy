/** One hart's privilege state: the status fields and what writes them, trap entry with delegation, the returns,
    and what each of these keeps of the fields that traps and returns move between the two levels. */
module HartState {
  import opened Wrappers
  import opened Words
  import opened WordBits

  datatype Mode = User | Supervisor | Machine

  function Rank(m: Mode): nat { match m case User => 0 case Supervisor => 1 case Machine => 3 }

  // fields of mstatus
  const SIE := W(0x2)
  const MIE := W(0x8)
  const SPIE := W(0x20)
  const MPIE := W(0x80)
  const SPP := W(0x100)
  const MPP_LOW := W(0x800)
  const MPP_HIGH := W(0x1000)
  const MPRV := W(0x2_0000)
  const TSR := W(0x40_0000)

  const SSTATUS_MASK := W(0x8000_0003_000D_E762)
  const MSTATUS_RO_MASK := W(0xF_0000_0000)
  const SE_MASK := W(0x222)
  const MODE_MASK := W(3)
  const INTERRUPT_BIT := W(0x8000_0000_0000_0000)
  const LOW_16 := W(0xFFFF)

  const CSR_SSTATUS := 0x100
  const CSR_SIE := 0x104
  const CSR_STVEC := 0x105
  const CSR_SEPC := 0x141
  const CSR_SCAUSE := 0x142
  const CSR_STVAL := 0x143
  const CSR_SIP := 0x144
  const CSR_MSTATUS := 0x300
  const CSR_MEDELEG := 0x302
  const CSR_MIDELEG := 0x303
  const CSR_MIE := 0x304
  const CSR_MTVEC := 0x305
  const CSR_MEPC := 0x341
  const CSR_MCAUSE := 0x342
  const CSR_MTVAL := 0x343
  const CSR_MIP := 0x344
  const CSR_COUNT := 4096

  type Csrs = s: seq<Word> | |s| == CSR_COUNT witness seq<Word>(CSR_COUNT, _ => ZERO)

  datatype State = State(pc: Word, mode: Mode, status: Word, ie: Word, ip: Word, csrs: Csrs, wfi: bool)

  predicate Flag(s: Word, field: Word) { BitAnd(s, field) != ZERO }

  function SetFlag(s: Word, field: Word, on: bool): Word {
    if on then BitOr(s, field) else BitAnd(s, Not(field))
  }

  /** `(w >> n) & 1` */
  predicate Has(w: Word, n: nat) { Flag(w, W(One(n))) }

  lemma SetOwn(s: Word, field: Word, on: bool)
    requires field != ZERO
    ensures Flag(SetFlag(s, field, on), field) == on
  {
  }

  lemma OrApart(s: Word, f: Word, g: Word)
    requires BitAnd(f, g) == ZERO
    ensures BitAnd(BitOr(s, f), g) == BitAnd(s, g)
  {
  }

  lemma ClearApart(s: Word, f: Word, g: Word)
    requires BitAnd(f, g) == ZERO
    ensures BitAnd(BitAnd(s, Not(f)), g) == BitAnd(s, g)
  {
  }

  lemma SetOther(s: Word, field: Word, on: bool, other: Word)
    requires BitAnd(field, other) == ZERO
    ensures Flag(SetFlag(s, field, on), other) == Flag(s, other)
  {
    hide BitAnd, BitOr, Not;
    OrApart(s, field, other);
    ClearApart(s, field, other);
  }

  predicate IsField(f: Word) {
    f in [SIE, MIE, SPIE, MPIE, SPP, MPP_LOW, MPP_HIGH, MPRV, TSR]
  }

  lemma FieldsApart(f: Word, g: Word)
    requires IsField(f) && IsField(g) && f != g
    ensures BitAnd(f, g) == ZERO
  {
  }

  /** Writing one status field sets that field and no other. */
  lemma FieldSet(s: Word, f: Word, on: bool, g: Word)
    requires IsField(f) && IsField(g)
    ensures Flag(SetFlag(s, f, on), g) == if f == g then on else Flag(s, g)
  {
    hide Flag, SetFlag, BitAnd;
    if f == g {
      SetOwn(s, f, on);
    } else {
      FieldsApart(f, g);
      SetOther(s, f, on, g);
    }
  }

  // ---- trap entry ----

  predicate Delegated(h: State, cause: nat, interrupt: bool) {
    h.mode != Machine && Has(h.csrs[if interrupt then CSR_MIDELEG else CSR_MEDELEG], cause)
  }

  function Target(h: State, cause: nat, interrupt: bool): Mode {
    if Delegated(h, cause, interrupt) then Supervisor else Machine
  }

  function EntryPc(tvec: Word, cause: nat, interrupt: bool): Word {
    Plus(BitAnd(tvec, Not(MODE_MASK)), if Flag(tvec, ONE) && interrupt then ImmWord(4 * cause) else ZERO)
  }

  function CauseWord(cause: nat, interrupt: bool): Word {
    BitOr(ImmWord(cause), if interrupt then INTERRUPT_BIT else ZERO)
  }

  function StatusIntoS(s: Word, prev: Mode): Word {
    SetFlag(SetFlag(SetFlag(s, SPIE, Flag(s, SIE)), SIE, false), SPP, prev != User)
  }

  function StatusIntoM(s: Word, prev: Mode): Word {
    SetMpp(SetFlag(SetFlag(s, MPIE, Flag(s, MIE)), MIE, false), prev)
  }

  function SetMpp(s: Word, m: Mode): Word {
    SetFlag(SetFlag(s, MPP_LOW, m != User), MPP_HIGH, m == Machine)
  }

  /** MPP as a mode; none for the reserved value 2. */
  function Mpp(s: Word): Option<Mode> {
    if Flag(s, MPP_HIGH) then (if Flag(s, MPP_LOW) then Some(Machine) else None)
    else Some(if Flag(s, MPP_LOW) then Supervisor else User)
  }

  function Trap(h: State, cause: nat, tval: Word, interrupt: bool): State {
    if Delegated(h, cause, interrupt) then
      State(EntryPc(h.csrs[CSR_STVEC], cause, interrupt), Supervisor, StatusIntoS(h.status, h.mode), h.ie, h.ip,
            h.csrs[CSR_SEPC := h.pc][CSR_SCAUSE := CauseWord(cause, interrupt)][CSR_STVAL := tval], false)
    else
      State(EntryPc(h.csrs[CSR_MTVEC], cause, interrupt), Machine, StatusIntoM(h.status, h.mode), h.ie, h.ip,
            h.csrs[CSR_MEPC := h.pc][CSR_MCAUSE := CauseWord(cause, interrupt)][CSR_MTVAL := tval], false)
  }

  /** Traps never lower the privilege. */
  lemma TrapRaises(h: State, cause: nat, tval: Word, interrupt: bool)
    ensures Rank(Trap(h, cause, tval, interrupt).mode) >= Rank(h.mode)
    ensures h.mode == Machine ==> Trap(h, cause, tval, interrupt).mode == Machine
  {
    hide EntryPc, CauseWord, StatusIntoS, StatusIntoM, Has;
  }

  lemma BitsTwice(n: nat)
    ensures ImmWord(2 * n) == Twice(ImmWord(n))
  {
    assert 2 * n / 2 == n;
  }

  lemma TwoLow(a: Word)
    ensures BitAnd(Twice(Twice(a)), MODE_MASK) == ZERO
  {
  }

  lemma FourTimes(n: nat)
    ensures BitAnd(ImmWord(4 * n), MODE_MASK) == ZERO
  {
    hide BitAnd, Twice, ImmWord;
    BitsTwice(n);
    BitsTwice(2 * n);
    TwoLow(ImmWord(n));
  }

  lemma AlignedSum(a: Word, b: Word)
    requires BitAnd(b, MODE_MASK) == ZERO
    ensures BitAnd(Plus(BitAnd(a, Not(MODE_MASK)), b), MODE_MASK) == ZERO
  {
  }

  lemma CauseParts(c: Word, interrupt: bool)
    requires c.bits < 4096
    ensures
      var w := BitOr(c, if interrupt then INTERRUPT_BIT else ZERO);
      Flag(w, INTERRUPT_BIT) == interrupt && BitAnd(w, Not(INTERRUPT_BIT)) == c
  {
  }

  /** What the handler finds: where it was interrupted, the trap value, the cause with its kind in
      the top bit, at a 4-aligned entry; no other CSR and no interrupt bit has changed. */
  lemma TrapRecords(h: State, cause: nat, tval: Word, interrupt: bool)
    requires cause < 64
    ensures
      var t := Trap(h, cause, tval, interrupt);
      var s := t.mode != Machine;
      var epc, why, val := if s then CSR_SEPC else CSR_MEPC, if s then CSR_SCAUSE else CSR_MCAUSE, if s then CSR_STVAL else CSR_MTVAL;
      t.csrs[epc] == h.pc && t.csrs[val] == tval
      && Flag(t.csrs[why], INTERRUPT_BIT) == interrupt && BitAnd(t.csrs[why], Not(INTERRUPT_BIT)) == ImmWord(cause)
      && BitAnd(t.pc, MODE_MASK) == ZERO && t.ie == h.ie && t.ip == h.ip && !t.wfi
      && forall n :: 0 <= n < CSR_COUNT && n != epc && n != why && n != val ==> t.csrs[n] == h.csrs[n]
  {
    Small(cause);
    FourTimes(cause);
    CauseParts(ImmWord(cause), interrupt);
    var tvec := h.csrs[if Delegated(h, cause, interrupt) then CSR_STVEC else CSR_MTVEC];
    var step := if Flag(tvec, ONE) && interrupt then ImmWord(4 * cause) else ZERO;
    ZeroAligned();
    AlignedSum(tvec, step);
    hide Flag, BitAnd, BitOr, Plus, ImmWord, Has, StatusIntoS, StatusIntoM, Not;
  }

  lemma ZeroAligned()
    ensures BitAnd(ZERO, MODE_MASK) == ZERO
  {
  }

  // ---- returns ----

  function MRet(h: State): State {
    var s := h.status;
    var s1 := if Mpp(s) == Some(User) || Mpp(s) == Some(Supervisor) then SetFlag(s, MPRV, false) else s;
    var s2 := SetFlag(SetFlag(s1, MIE, Flag(s1, MPIE)), MPIE, true);
    h.(pc := h.csrs[CSR_MEPC], mode := if Mpp(s).Some? then Mpp(s).value else h.mode, status := SetMpp(s2, User))
  }

  predicate SRetLegal(h: State) { !(h.mode == User || (h.mode == Supervisor && Flag(h.status, TSR))) }

  /** SRET where it is legal; elsewhere the instruction raises an illegal-instruction exception. */
  function SRet(h: State): State {
    var s := h.status;
    var s1 := if Flag(s, SPP) then SetFlag(s, MPRV, false) else s;
    var s2 := SetFlag(SetFlag(s1, SIE, Flag(s1, SPIE)), SPIE, true);
    h.(pc := h.csrs[CSR_SEPC], mode := if Flag(s, SPP) then Supervisor else User, status := SetFlag(s2, SPP, false))
  }

  /** The status fields traps and returns move between. */
  datatype Fields = Fields(sie: bool, mie: bool, spie: bool, mpie: bool, spp: bool, mpp: Option<Mode>, tsr: bool)

  function FieldsOf(s: Word): Fields {
    Fields(Flag(s, SIE), Flag(s, MIE), Flag(s, SPIE), Flag(s, MPIE), Flag(s, SPP), Mpp(s), Flag(s, TSR))
  }

  /** A write to one field, seen on the fields. */
  lemma SetSeen(s: Word, f: Word, on: bool)
    requires IsField(f)
    ensures
      var r := SetFlag(s, f, on);
      && Flag(r, SIE) == (if f == SIE then on else Flag(s, SIE)) && Flag(r, MIE) == (if f == MIE then on else Flag(s, MIE))
      && Flag(r, SPIE) == (if f == SPIE then on else Flag(s, SPIE))
      && Flag(r, MPIE) == (if f == MPIE then on else Flag(s, MPIE))
      && Flag(r, SPP) == (if f == SPP then on else Flag(s, SPP)) && Flag(r, TSR) == (if f == TSR then on else Flag(s, TSR))
      && Flag(r, MPP_LOW) == (if f == MPP_LOW then on else Flag(s, MPP_LOW))
      && Flag(r, MPP_HIGH) == (if f == MPP_HIGH then on else Flag(s, MPP_HIGH))
  {
    hide Flag, SetFlag, BitAnd;
    FieldSet(s, f, on, SIE);
    FieldSet(s, f, on, MIE);
    FieldSet(s, f, on, SPIE);
    FieldSet(s, f, on, MPIE);
    FieldSet(s, f, on, SPP);
    FieldSet(s, f, on, TSR);
    FieldSet(s, f, on, MPP_LOW);
    FieldSet(s, f, on, MPP_HIGH);
  }

  lemma SetMppSeen(s: Word, m: Mode)
    ensures FieldsOf(SetMpp(s, m)) == FieldsOf(s).(mpp := Some(m))
  {
    hide Flag, SetFlag, BitAnd;
    SetSeen(s, MPP_LOW, m != User);
    SetSeen(SetFlag(s, MPP_LOW, m != User), MPP_HIGH, m == Machine);
  }

  lemma IntoSSeen(s: Word, prev: Mode)
    ensures FieldsOf(StatusIntoS(s, prev)) == FieldsOf(s).(spie := Flag(s, SIE), sie := false, spp := prev != User)
  {
    hide Flag, SetFlag, BitAnd;
    var s1 := SetFlag(s, SPIE, Flag(s, SIE));
    SetSeen(s, SPIE, Flag(s, SIE));
    SetSeen(s1, SIE, false);
    SetSeen(SetFlag(s1, SIE, false), SPP, prev != User);
  }

  lemma IntoMSeen(s: Word, prev: Mode)
    ensures FieldsOf(StatusIntoM(s, prev)) == FieldsOf(s).(mpie := Flag(s, MIE), mie := false, mpp := Some(prev))
  {
    hide Flag, SetFlag, BitAnd, SetMpp;
    var s1 := SetFlag(s, MPIE, Flag(s, MIE));
    SetSeen(s, MPIE, Flag(s, MIE));
    SetSeen(s1, MIE, false);
    SetMppSeen(SetFlag(s1, MIE, false), prev);
  }

  /** MRET: mode from MPP, MIE from MPIE, the rest of the fields as they were. */
  lemma MRetSeen(h: State)
    ensures
      var f := FieldsOf(h.status);
      FieldsOf(MRet(h).status) == f.(mie := f.mpie, mpie := true, mpp := Some(User))
  {
    hide Flag, SetFlag, BitAnd, SetMpp;
    var s := h.status;
    SetSeen(s, MPRV, false);
    var s1 := if Mpp(s) == Some(User) || Mpp(s) == Some(Supervisor) then SetFlag(s, MPRV, false) else s;
    SetSeen(s1, MIE, Flag(s1, MPIE));
    SetSeen(SetFlag(s1, MIE, Flag(s1, MPIE)), MPIE, true);
    SetMppSeen(SetFlag(SetFlag(s1, MIE, Flag(s1, MPIE)), MPIE, true), User);
  }

  lemma SRetSeen(h: State)
    ensures
      var f := FieldsOf(h.status);
      FieldsOf(SRet(h).status) == f.(sie := f.spie, spie := true, spp := false)
  {
    hide Flag, SetFlag, BitAnd;
    var s := h.status;
    SetSeen(s, MPRV, false);
    var s1 := if Flag(s, SPP) then SetFlag(s, MPRV, false) else s;
    SetSeen(s1, SIE, Flag(s1, SPIE));
    SetSeen(SetFlag(s1, SIE, Flag(s1, SPIE)), SPIE, true);
    SetSeen(SetFlag(SetFlag(s1, SIE, Flag(s1, SPIE)), SPIE, true), SPP, false);
  }

  /** Setting any field but MPRV keeps MPRV. */
  lemma KeepsMprv(s: Word, f: Word, on: bool)
    requires IsField(f) && f != MPRV
    ensures Flag(SetFlag(s, f, on), MPRV) == Flag(s, MPRV)
  {
    hide Flag, SetFlag, BitAnd;
    FieldSet(s, f, on, MPRV);
  }

  /** Every SRET goes below M, yet MPRV survives exactly those that go to U. */
  lemma SRetMprv(h: State)
    ensures Flag(SRet(h).status, MPRV) <==> Flag(h.status, MPRV) && SRet(h).mode == User
    ensures SRet(h).mode == User <==> !Flag(h.status, SPP)
  {
    hide Flag, SetFlag, BitAnd;
    var s := h.status;
    FieldSet(s, MPRV, false, MPRV);
    var s1 := if Flag(s, SPP) then SetFlag(s, MPRV, false) else s;
    KeepsMprv(s1, SIE, Flag(s1, SPIE));
    var s2 := SetFlag(s1, SIE, Flag(s1, SPIE));
    KeepsMprv(s2, SPIE, true);
    KeepsMprv(SetFlag(s2, SPIE, true), SPP, false);
  }

  /** MPRV survives an MRET exactly when MPP says M or holds the reserved value. */
  lemma MRetMprv(h: State)
    ensures Flag(MRet(h).status, MPRV) <==> Flag(h.status, MPRV) && Flag(h.status, MPP_HIGH)
  {
    hide Flag, SetFlag, BitAnd;
    var s := h.status;
    FieldSet(s, MPRV, false, MPRV);
    var s1 := if Mpp(s) == Some(User) || Mpp(s) == Some(Supervisor) then SetFlag(s, MPRV, false) else s;
    KeepsMprv(s1, MIE, Flag(s1, MPIE));
    var s2 := SetFlag(s1, MIE, Flag(s1, MPIE));
    KeepsMprv(s2, MPIE, true);
    var s3 := SetFlag(s2, MPIE, true);
    KeepsMprv(s3, MPP_LOW, false);
    KeepsMprv(SetFlag(s3, MPP_LOW, false), MPP_HIGH, false);
  }

  /** The reserved MPP value has no case: the mode stays, the rest of the return happens. */
  lemma MRetReserved(h: State)
    requires Flag(h.status, MPP_HIGH) && !Flag(h.status, MPP_LOW)
    ensures MRet(h).mode == h.mode && MRet(h).pc == h.csrs[CSR_MEPC]
    ensures Flag(MRet(h).status, MPRV) == Flag(h.status, MPRV)
  {
    hide Flag, SetFlag, BitAnd;
    var s := h.status;
    var s1 := SetFlag(s, MIE, Flag(s, MPIE));
    var s2 := SetFlag(s1, MPIE, true);
    FieldSet(s, MIE, Flag(s, MPIE), MPRV);
    FieldSet(s1, MPIE, true, MPRV);
    FieldSet(s2, MPP_LOW, false, MPRV);
    FieldSet(SetFlag(s2, MPP_LOW, false), MPP_HIGH, false, MPRV);
  }
}
