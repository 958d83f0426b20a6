/** The hart object: which pending interrupt is taken and where to, the windows the CSR numbers open on the
    status and interrupt registers, and the methods that take traps and return from them. */
module HartDevice {
  import opened Wrappers
  import opened Words
  import opened WordBits
  import opened HartState

  const IRQ_PRIORITY: seq<nat> := [11, 9, 3, 1, 7, 5]
  const CSR_CYCLE := 0xC00
  const CSR_INSTRET := 0xC02
  const CSR_HPMCOUNTER3 := 0xC03
  const CSR_HPMCOUNTER31 := 0xC1F
  const CSR_MCYCLE := 0xB00
  const CSR_MINSTRET := 0xB02

  // ---- interrupt selection ----

  predicate MachineEnabled(h: State) { if h.mode == Machine then Flag(h.status, MIE) else true }

  predicate SupervisorEnabled(h: State) {
    if h.mode == Supervisor then Flag(h.status, SIE) else h.mode == User
  }

  function Mideleg(h: State): Word { h.csrs[CSR_MIDELEG] }

  function PendingMachine(h: State): Word { BitAnd(BitAnd(h.ip, h.ie), Not(Mideleg(h))) }

  function PendingSupervisor(h: State): Word {
    BitAnd(BitAnd(BitAnd(h.ip, SE_MASK), Mideleg(h)), BitAnd(h.ie, SE_MASK))
  }

  /** The first of `IRQ_PRIORITY[i..]` that is pending. */
  function FirstOf(pending: Word, i: nat): (r: Option<nat>)
    requires i <= |IRQ_PRIORITY|
    ensures r.Some? ==> r.value in IRQ_PRIORITY && Has(pending, r.value)
    decreases |IRQ_PRIORITY| - i
  {
    if i == |IRQ_PRIORITY| then None
    else if Has(pending, IRQ_PRIORITY[i]) then Some(IRQ_PRIORITY[i])
    else FirstOf(pending, i + 1)
  }

  /** The interrupt `check_ints` takes. */
  function Chosen(h: State): Option<nat> {
    if BitAnd(h.ip, h.ie) == ZERO then None
    else if MachineEnabled(h) && FirstOf(PendingMachine(h), 0).Some? then FirstOf(PendingMachine(h), 0)
    else if SupervisorEnabled(h) then FirstOf(PendingSupervisor(h), 0)
    else None
  }

  /** Pending, enabled, and not masked at the level it goes to. */
  predicate Ready(h: State, irq: nat) {
    && irq in IRQ_PRIORITY && Has(h.ip, irq) && Has(h.ie, irq)
    && if Has(Mideleg(h), irq) then Has(SE_MASK, irq) && SupervisorEnabled(h) else MachineEnabled(h)
  }

  function Place(irq: nat): nat
    requires irq in IRQ_PRIORITY
    ensures Place(irq) < 6 && IRQ_PRIORITY[Place(irq)] == irq
  {
    if irq == 11 then 0 else if irq == 9 then 1 else if irq == 3 then 2 else if irq == 1 then 3 else if irq == 7 then 4 else 5
  }

  /** Machine-level before delegated, then by the priority table. */
  predicate Before(h: State, i: nat, j: nat)
    requires i in IRQ_PRIORITY && j in IRQ_PRIORITY
  {
    (!Has(Mideleg(h), i) && Has(Mideleg(h), j)) || (Has(Mideleg(h), i) == Has(Mideleg(h), j) && Place(i) <= Place(j))
  }

  lemma {:induction false} FirstExactly(pending: Word, i: nat)
    requires i <= |IRQ_PRIORITY|
    ensures FirstOf(pending, i) == None <==> forall k :: i <= k < |IRQ_PRIORITY| ==> !Has(pending, IRQ_PRIORITY[k])
    ensures FirstOf(pending, i).Some? ==>
      forall k :: i <= k < |IRQ_PRIORITY| && Has(pending, IRQ_PRIORITY[k]) ==> Place(FirstOf(pending, i).value) <= k
    decreases |IRQ_PRIORITY| - i
  {
    hide Has;
    if i < |IRQ_PRIORITY| { FirstExactly(pending, i + 1); }
  }

  lemma AndAssoc(a: Word, b: Word, p: Word)
    ensures BitAnd(BitAnd(a, b), p) == BitAnd(a, BitAnd(b, p)) && BitAnd(a, ZERO) == ZERO
  {
  }

  lemma NotSplits(a: Word, p: Word)
    ensures BitAnd(Not(a), p) == ZERO <==> BitAnd(a, p) == p
  {
  }

  lemma HasAnd(a: Word, b: Word, irq: nat)
    requires irq in IRQ_PRIORITY
    ensures Has(BitAnd(a, b), irq) <==> Has(a, irq) && Has(b, irq)
    ensures Has(Not(a), irq) <==> !Has(a, irq)
  {
    var p := W(One(irq));
    OneSingle(irq);
    OneNonzero(irq);
    hide BitAnd, One, Single, Not;
    AndAssoc(a, b, p);
    AllOrNone(b, p);
    AllOrNone(a, p);
    NotSplits(a, p);
  }

  lemma PendingBits(h: State, irq: nat)
    requires irq in IRQ_PRIORITY
    ensures Has(PendingMachine(h), irq) <==> Has(h.ip, irq) && Has(h.ie, irq) && !Has(Mideleg(h), irq)
    ensures Has(PendingSupervisor(h), irq) <==>
      Has(h.ip, irq) && Has(h.ie, irq) && Has(Mideleg(h), irq) && Has(SE_MASK, irq)
    ensures BitAnd(h.ip, h.ie) == ZERO ==> !(Has(h.ip, irq) && Has(h.ie, irq))
  {
    var d := Mideleg(h);
    HasAnd(h.ip, h.ie, irq);
    HasAnd(BitAnd(h.ip, h.ie), Not(d), irq);
    HasAnd(d, d, irq);
    HasAnd(h.ip, SE_MASK, irq);
    HasAnd(BitAnd(h.ip, SE_MASK), d, irq);
    HasAnd(h.ie, SE_MASK, irq);
    HasAnd(BitAnd(BitAnd(h.ip, SE_MASK), d), BitAnd(h.ie, SE_MASK), irq);
    ZeroHasNone(irq);
    hide BitAnd, Has, Not;
  }

  lemma ZeroHasNone(irq: nat)
    ensures !Has(ZERO, irq)
  {
  }

  /** An interrupt is taken exactly when one is ready, and it is the first of the ready ones. */
  lemma ChosenExactly(h: State)
    ensures Chosen(h) == None <==> forall irq :: irq in IRQ_PRIORITY ==> !Ready(h, irq)
    ensures Chosen(h).Some? ==> Ready(h, Chosen(h).value)
    ensures Chosen(h).Some? ==> forall irq :: Ready(h, irq) ==> Before(h, Chosen(h).value, irq)
  {
    hide Has, PendingMachine, PendingSupervisor, MachineEnabled, SupervisorEnabled, Mideleg, FirstOf;
    FirstExactly(PendingMachine(h), 0);
    FirstExactly(PendingSupervisor(h), 0);
    forall irq | irq in IRQ_PRIORITY
      ensures Has(PendingMachine(h), irq) <==> Has(h.ip, irq) && Has(h.ie, irq) && !Has(Mideleg(h), irq)
      ensures Has(PendingSupervisor(h), irq) <==>
        Has(h.ip, irq) && Has(h.ie, irq) && Has(Mideleg(h), irq) && Has(SE_MASK, irq)
      ensures BitAnd(h.ip, h.ie) == ZERO ==> !(Has(h.ip, irq) && Has(h.ie, irq))
      ensures IRQ_PRIORITY[Place(irq)] == irq
    {
      PendingBits(h, irq);
    }
    hide BitAnd, Place;
  }

  /** It traps to the level it was enabled for, never below the present mode. */
  lemma ChosenTarget(h: State)
    requires Chosen(h).Some?
    ensures
      var irq := Chosen(h).value;
      Target(h, irq, true) == (if Has(Mideleg(h), irq) then Supervisor else Machine)
      && Rank(Target(h, irq, true)) >= Rank(h.mode)
  {
    ChosenExactly(h);
    hide Has, Chosen;
  }

  // ---- the CSR views ----

  function CsrRead(h: State, csr: nat): Word
    requires csr < CSR_COUNT
  {
    if csr == CSR_MSTATUS then h.status
    else if csr == CSR_SSTATUS then BitAnd(h.status, SSTATUS_MASK)
    else if csr == CSR_SIE then BitAnd(h.ie, SE_MASK)
    else if csr == CSR_SIP then BitAnd(h.ip, SE_MASK)
    else if csr == CSR_MIP then h.ip
    else if csr == CSR_MIE then h.ie
    else if csr == CSR_CYCLE then h.csrs[CSR_MCYCLE]
    else if csr == CSR_INSTRET then h.csrs[CSR_MINSTRET]
    else if CSR_HPMCOUNTER3 <= csr <= CSR_HPMCOUNTER31 then h.csrs[csr - 0x100]
    else h.csrs[csr]
  }

  function Merged(before: Word, after: Word, mask: Word): Word {
    BitOr(BitAnd(before, Not(mask)), BitAnd(after, mask))
  }

  predicate ReadOnlyId(csr: nat) { csr == 0xF11 || csr == 0xF12 || csr == 0xF13 }

  /** `ie` and `ip` are 16 bits wide. */
  function CsrWrite(h: State, csr: nat, val: Word): State
    requires csr < CSR_COUNT
  {
    if csr == CSR_MSTATUS then h.(status := Merged(val, h.status, MSTATUS_RO_MASK))
    else if csr == CSR_SSTATUS then h.(status := Merged(h.status, val, SSTATUS_MASK))
    else if csr == CSR_SIE then h.(ie := BitAnd(Merged(h.ie, val, SE_MASK), LOW_16))
    else if csr == CSR_SIP then h.(ip := BitAnd(Merged(h.ip, val, SE_MASK), LOW_16))
    else if csr == CSR_MIE then h.(ie := BitAnd(val, LOW_16))
    else if csr == CSR_MIP then h.(ip := BitAnd(val, LOW_16))
    else if ReadOnlyId(csr) then h
    else h.(csrs := h.csrs[csr := val])
  }

  lemma MergedInside(a: Word, b: Word, mask: Word)
    ensures BitAnd(Merged(a, b, mask), mask) == BitAnd(b, mask)
  {
  }

  lemma MergedOutside(a: Word, b: Word, mask: Word)
    ensures BitAnd(Merged(a, b, mask), Not(mask)) == BitAnd(a, Not(mask))
  {
  }

  /** sstatus is a window on mstatus: it reads part of it, a write lands in that part, reads back,
      and leaves the rest of mstatus alone. */
  lemma SstatusWindow(h: State, val: Word)
    ensures CsrRead(h, CSR_SSTATUS) == BitAnd(CsrRead(h, CSR_MSTATUS), SSTATUS_MASK)
    ensures
      var w := CsrWrite(h, CSR_SSTATUS, val);
      CsrRead(w, CSR_SSTATUS) == BitAnd(val, SSTATUS_MASK)
      && BitAnd(CsrRead(w, CSR_MSTATUS), Not(SSTATUS_MASK)) == BitAnd(CsrRead(h, CSR_MSTATUS), Not(SSTATUS_MASK))
  {
    hide BitAnd, Merged, Not;
    MergedInside(h.status, val, SSTATUS_MASK);
    MergedOutside(h.status, val, SSTATUS_MASK);
  }

  lemma MstatusReadOnly(h: State, val: Word)
    ensures
      var w := CsrWrite(h, CSR_MSTATUS, val);
      BitAnd(w.status, MSTATUS_RO_MASK) == BitAnd(h.status, MSTATUS_RO_MASK)
      && BitAnd(w.status, Not(MSTATUS_RO_MASK)) == BitAnd(val, Not(MSTATUS_RO_MASK))
  {
    hide BitAnd, Merged, Not;
    MergedInside(val, h.status, MSTATUS_RO_MASK);
    MergedOutside(val, h.status, MSTATUS_RO_MASK);
  }

  lemma KeepsOutside(s: Word, val: Word, mask: Word, f: Word)
    requires BitAnd(mask, f) == ZERO
    ensures BitAnd(Merged(s, val, mask), f) == BitAnd(s, f)
  {
  }

  /** Through sstatus the supervisor cannot reach the machine level's fields, nor TSR. */
  lemma SstatusKeepsMachine(h: State, val: Word)
    ensures
      var f, g := FieldsOf(h.status), FieldsOf(CsrWrite(h, CSR_SSTATUS, val).status);
      g == f.(sie := g.sie, spie := g.spie, spp := g.spp)
  {
    MaskMissesMachine();
    hide BitAnd, Merged;
    KeepsOutside(h.status, val, SSTATUS_MASK, MIE);
    KeepsOutside(h.status, val, SSTATUS_MASK, MPIE);
    KeepsOutside(h.status, val, SSTATUS_MASK, MPP_LOW);
    KeepsOutside(h.status, val, SSTATUS_MASK, MPP_HIGH);
    KeepsOutside(h.status, val, SSTATUS_MASK, TSR);
  }

  lemma MaskMissesMachine()
    ensures BitAnd(SSTATUS_MASK, MIE) == ZERO && BitAnd(SSTATUS_MASK, MPIE) == ZERO
    ensures BitAnd(SSTATUS_MASK, MPP_LOW) == ZERO && BitAnd(SSTATUS_MASK, MPP_HIGH) == ZERO
    ensures BitAnd(SSTATUS_MASK, TSR) == ZERO
  {
  }

  const UXL_MASK := W(0x3_0000_0000)

  /** The read-only bits an mstatus write preserves survive an sstatus write exactly when the value
      written holds the UXL field as it is: that half of them is open to the supervisor, the SXL
      half is not. */
  lemma UxlOpen(h: State, val: Word)
    ensures BitAnd(CsrWrite(h, CSR_SSTATUS, val).status, MSTATUS_RO_MASK) == BitAnd(h.status, MSTATUS_RO_MASK)
      <==> BitAnd(val, UXL_MASK) == BitAnd(h.status, UXL_MASK)
    ensures BitAnd(CsrWrite(h, CSR_SSTATUS, val).status, UXL_MASK) == BitAnd(val, UXL_MASK)
  {
  }

  /** At work: writing zero to both registers where UXL says 64 bits. */
  lemma UxlZeroed(h: State)
    requires BitAnd(h.status, UXL_MASK) == W(0x2_0000_0000)
    ensures BitAnd(CsrWrite(h, CSR_MSTATUS, ZERO).status, UXL_MASK) == W(0x2_0000_0000)
    ensures BitAnd(CsrWrite(h, CSR_SSTATUS, ZERO).status, UXL_MASK) == ZERO
  {
  }

  // ---- the object ----

  class Hart {
    var pc: Word
    var mode: Mode
    var status: Word
    var ie: Word
    var ip: Word
    var csrs: Csrs
    var wfi: bool

    function Now(): State
      reads this
    {
      State(pc, mode, status, ie, ip, csrs, wfi)
    }

    method TakeTrap(cause: nat, tval: Word, interrupt: bool)
      modifies this
      ensures Now() == Trap(old(Now()), cause, tval, interrupt)
      ensures Rank(mode) >= Rank(old(mode))
    {
      hide SetFlag, Flag, BitAnd, BitOr, Plus, ImmWord, One;
      wfi := false;
      var trapPc, prevMode := pc, mode;
      var delegateToS := false;
      if prevMode != Machine {
        delegateToS := if interrupt then Has(csrs[CSR_MIDELEG], cause) else Has(csrs[CSR_MEDELEG], cause);
      }
      if delegateToS {
        mode := Supervisor;
        pc := EntryPc(csrs[CSR_STVEC], cause, interrupt);
        csrs := csrs[CSR_SEPC := trapPc];
        csrs := csrs[CSR_SCAUSE := CauseWord(cause, interrupt)];
        csrs := csrs[CSR_STVAL := tval];
        status := SetFlag(status, SPIE, Flag(status, SIE));
        status := SetFlag(status, SIE, false);
        status := SetFlag(status, SPP, prevMode != User);
      } else {
        mode := Machine;
        pc := EntryPc(csrs[CSR_MTVEC], cause, interrupt);
        csrs := csrs[CSR_MEPC := trapPc];
        csrs := csrs[CSR_MCAUSE := CauseWord(cause, interrupt)];
        csrs := csrs[CSR_MTVAL := tval];
        status := SetFlag(status, MPIE, Flag(status, MIE));
        status := SetFlag(status, MIE, false);
        status := SetMpp(status, prevMode);
      }
    }

    method ExecMret()
      modifies this
      ensures Now() == MRet(old(Now()))
    {
      hide SetFlag, Flag, BitAnd, BitOr;
      pc := csrs[CSR_MEPC];
      match Mpp(status) {
        case Some(User) =>
          status := SetFlag(status, MPRV, false);
          mode := User;
        case Some(Supervisor) =>
          status := SetFlag(status, MPRV, false);
          mode := Supervisor;
        case Some(Machine) =>
          mode := Machine;
        case None =>
      }
      status := SetFlag(status, MIE, Flag(status, MPIE));
      status := SetFlag(status, MPIE, true);
      status := SetMpp(status, User);
    }

    /** False is an illegal-instruction exception, with nothing changed. */
    method ExecSret() returns (ok: bool)
      modifies this
      ensures ok == SRetLegal(old(Now()))
      ensures Now() == if ok then SRet(old(Now())) else old(Now())
    {
      hide SetFlag, Flag, BitAnd, BitOr;
      if mode == User || (mode == Supervisor && Flag(status, TSR)) {
        return false;
      }
      pc := csrs[CSR_SEPC];
      if Flag(status, SPP) {
        status := SetFlag(status, MPRV, false);
        mode := Supervisor;
      } else {
        mode := User;
      }
      status := SetFlag(status, SIE, Flag(status, SPIE));
      status := SetFlag(status, SPIE, true);
      status := SetFlag(status, SPP, false);
      ok := true;
    }

    static method FindFirst(pending: Word) returns (r: Option<nat>)
      ensures r == FirstOf(pending, 0)
    {
      hide Has;
      for i := 0 to |IRQ_PRIORITY|
        invariant FirstOf(pending, 0) == FirstOf(pending, i)
      {
        if Has(pending, IRQ_PRIORITY[i]) {
          return Some(IRQ_PRIORITY[i]);
        }
      }
      r := None;
    }

    /** Takes the interrupt that is due, if any. */
    method CheckInts() returns (taken: bool)
      modifies this
      ensures taken == Chosen(old(Now())).Some?
      ensures Now() == if taken then Trap(old(Now()), Chosen(old(Now())).value, ZERO, true) else old(Now())
    {
      hide Trap, FirstOf, Flag;
      if BitAnd(ip, ie) == ZERO {
        return false;
      }
      if MachineEnabled(Now()) {
        var pending := PendingMachine(Now());
        var first := FindFirst(pending);
        if first.Some? {
          TakeTrap(first.value, ZERO, true);
          return true;
        }
      }
      if SupervisorEnabled(Now()) {
        var pending := PendingSupervisor(Now());
        var first := FindFirst(pending);
        if first.Some? {
          TakeTrap(first.value, ZERO, true);
          return true;
        }
      }
      taken := false;
    }

    method WriteCsr(csr: nat, val: Word)
      requires csr < CSR_COUNT
      modifies this
      ensures Now() == CsrWrite(old(Now()), csr, val)
    {
      hide Merged, BitAnd;
      if csr == CSR_MSTATUS {
        status := Merged(val, status, MSTATUS_RO_MASK);
      } else if csr == CSR_SSTATUS {
        status := Merged(status, val, SSTATUS_MASK);
      } else if csr == CSR_SIE {
        ie := BitAnd(Merged(ie, val, SE_MASK), LOW_16);
      } else if csr == CSR_SIP {
        ip := BitAnd(Merged(ip, val, SE_MASK), LOW_16);
      } else if csr == CSR_MIE {
        ie := BitAnd(val, LOW_16);
      } else if csr == CSR_MIP {
        ip := BitAnd(val, LOW_16);
      } else if !ReadOnlyId(csr) {
        csrs := csrs[csr := val];
      }
    }
  }
}
