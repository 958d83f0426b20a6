/** Handlers interrupting handlers: well-bracketed traps and returns of any depth. */
module HartNesting {
  import opened Wrappers
  import opened Words
  import opened HartState

  /** What a handler does in order: code of its own, which leaves the machine in some state, or
      being trapped itself. */
  datatype Act = Code(next: State) | Nested(inner: Handler)

  /** A trap and its handler; one that `saves` keeps xepc and the previous fields of its level
      and puts them back before returning. */
  datatype Handler = Handler(cause: nat, tval: Word, interrupt: bool, saves: bool, body: seq<Act>)

  function Enter(h: State, t: Handler): State { Trap(h, t.cause, t.tval, t.interrupt) }

  function Leave(level: Mode, h: State): State { if level == Machine then MRet(h) else SRet(h) }

  /** xepc, xPIE and xPP of the level put back as they were at entry. */
  function Restored(entry: State, h: State): State {
    if entry.mode == Machine then
      var s := SetFlag(h.status, MPIE, Flag(entry.status, MPIE));
      h.(csrs := h.csrs[CSR_MEPC := entry.csrs[CSR_MEPC]],
         status := SetFlag(SetFlag(s, MPP_LOW, Flag(entry.status, MPP_LOW)), MPP_HIGH, Flag(entry.status, MPP_HIGH)))
    else
      var s := SetFlag(h.status, SPIE, Flag(entry.status, SPIE));
      h.(csrs := h.csrs[CSR_SEPC := entry.csrs[CSR_SEPC]], status := SetFlag(s, SPP, Flag(entry.status, SPP)))
  }

  /** The state when the handler is about to return. */
  function BeforeReturn(h: State, t: Handler): State
    decreases t, |t.body| + 1
  {
    var entry := Enter(h, t);
    var done := RunBody(entry, t, 0);
    if t.saves then Restored(entry, done) else done
  }

  /** The state after trap, handler and return. */
  function RunHandler(h: State, t: Handler): State
    decreases t, |t.body| + 2
  {
    Leave(Enter(h, t).mode, BeforeReturn(h, t))
  }

  function RunBody(h: State, t: Handler, i: nat): State
    requires i <= |t.body|
    decreases t, |t.body| - i
  {
    if i == |t.body| then h
    else match t.body[i]
      case Code(next) => RunBody(next, t, i + 1)
      case Nested(inner) => RunBody(RunHandler(h, inner), t, i + 1)
  }

  /** Handler code of a level: it stays in its mode and leaves alone xepc and the status fields
      of both levels, except its own level's interrupt enable. */
  predicate Honest(h: State, next: State) {
    && next.mode == h.mode
    && next.csrs[CSR_SEPC] == h.csrs[CSR_SEPC] && next.csrs[CSR_MEPC] == h.csrs[CSR_MEPC]
    && var f, g := FieldsOf(h.status), FieldsOf(next.status);
       g == if h.mode == Machine then f.(mie := g.mie) else f.(sie := g.sie)
  }

  /** A run of well-behaved handlers: honest code, S-level ones where SRET is not trapped, and
      whoever is trapped again at its own level saves. */
  predicate Proper(h: State, t: Handler)
    decreases t, |t.body| + 2
  {
    (Enter(h, t).mode == Supervisor ==> !Flag(h.status, TSR)) && ProperBody(Enter(h, t), t, 0)
  }

  predicate ProperBody(h: State, t: Handler, i: nat)
    requires i <= |t.body|
    decreases t, |t.body| - i
  {
    i == |t.body| ||
    match t.body[i]
    case Code(next) => Honest(h, next) && ProperBody(next, t, i + 1)
    case Nested(inner) =>
      Proper(h, inner) && (Enter(h, inner).mode == h.mode ==> t.saves) && ProperBody(RunHandler(h, inner), t, i + 1)
  }

  /** What a handler at a level keeps from `h1` to `h2` while it runs. */
  predicate Kept(h1: State, h2: State, saves: bool) {
    var f, g := FieldsOf(h1.status), FieldsOf(h2.status);
    && h2.mode == h1.mode && g.tsr == f.tsr
    && (if h1.mode == Machine then
          g.sie == f.sie && g.spie == f.spie && g.spp == f.spp && h2.csrs[CSR_SEPC] == h1.csrs[CSR_SEPC]
          && (!saves ==> g.mpie == f.mpie && g.mpp == f.mpp && h2.csrs[CSR_MEPC] == h1.csrs[CSR_MEPC])
        else
          g.mie == f.mie
          && (!saves ==> g.spie == f.spie && g.spp == f.spp && h2.csrs[CSR_SEPC] == h1.csrs[CSR_SEPC]))
  }

  /** Where an interrupted program finds itself again. */
  predicate Resumes(h: State, r: State) {
    var f, g := FieldsOf(h.status), FieldsOf(r.status);
    r.pc == h.pc && r.mode == h.mode && g.mie == f.mie && g.sie == f.sie && g.tsr == f.tsr
  }

  /** What entering does, seen on the fields. */
  lemma EnterSeen(h: State, t: Handler)
    ensures
      var e, f := Enter(h, t), FieldsOf(h.status);
      (e.mode == Machine || e.mode == Supervisor)
      && (if e.mode == Machine then
            FieldsOf(e.status) == f.(mpie := f.mie, mie := false, mpp := Some(h.mode))
            && e.csrs[CSR_MEPC] == h.pc && e.csrs[CSR_SEPC] == h.csrs[CSR_SEPC]
          else
            h.mode != Machine && FieldsOf(e.status) == f.(spie := f.sie, sie := false, spp := h.mode != User)
            && e.csrs[CSR_SEPC] == h.pc && e.csrs[CSR_MEPC] == h.csrs[CSR_MEPC])
  {
    IntoSSeen(h.status, h.mode);
    IntoMSeen(h.status, h.mode);
    hide Flag, SetFlag, Has, EntryPc, CauseWord, StatusIntoS, StatusIntoM, Mpp;
  }

  lemma RestoredMachine(entry: State, h: State)
    requires entry.mode == Machine
    ensures
      var r, f, g := Restored(entry, h), FieldsOf(h.status), FieldsOf(entry.status);
      r.mode == h.mode && FieldsOf(r.status) == f.(mpie := g.mpie, mpp := g.mpp)
      && r.csrs == h.csrs[CSR_MEPC := entry.csrs[CSR_MEPC]]
  {
    hide Flag, SetFlag, BitAnd;
    var s := SetFlag(h.status, MPIE, Flag(entry.status, MPIE));
    SetSeen(h.status, MPIE, Flag(entry.status, MPIE));
    SetSeen(s, MPP_LOW, Flag(entry.status, MPP_LOW));
    SetSeen(SetFlag(s, MPP_LOW, Flag(entry.status, MPP_LOW)), MPP_HIGH, Flag(entry.status, MPP_HIGH));
  }

  lemma RestoredSupervisor(entry: State, h: State)
    requires entry.mode != Machine
    ensures
      var r, f, g := Restored(entry, h), FieldsOf(h.status), FieldsOf(entry.status);
      r.mode == h.mode && FieldsOf(r.status) == f.(spie := g.spie, spp := g.spp)
      && r.csrs == h.csrs[CSR_SEPC := entry.csrs[CSR_SEPC]]
  {
    hide Flag, SetFlag, BitAnd;
    var u := SetFlag(h.status, SPIE, Flag(entry.status, SPIE));
    SetSeen(h.status, SPIE, Flag(entry.status, SPIE));
    SetSeen(u, SPP, Flag(entry.status, SPP));
  }

  lemma KeptOn(h1: State, h2: State, h3: State, saves: bool)
    requires Kept(h1, h2, saves) && Kept(h2, h3, saves)
    ensures Kept(h1, h3, saves)
  {
    hide FieldsOf;
  }

  lemma HonestKeeps(h: State, next: State, saves: bool)
    requires Honest(h, next)
    ensures Kept(h, next, saves)
  {
    hide FieldsOf;
  }

  /** A nested handler leaves its host's state as the host needs it. */
  lemma NestedKeeps(h: State, inner: Handler, saves: bool)
    requires h.mode != User && Resumes(h, RunHandler(h, inner))
    requires Enter(h, inner).mode == h.mode ==> saves
    requires Enter(h, inner).mode == Machine ==>
      var f, g := FieldsOf(h.status), FieldsOf(RunHandler(h, inner).status);
      g.spie == f.spie && g.spp == f.spp && RunHandler(h, inner).csrs[CSR_SEPC] == h.csrs[CSR_SEPC]
    ensures Kept(h, RunHandler(h, inner), saves)
  {
    EnterSeen(h, inner);
    hide FieldsOf, RunHandler, Enter;
  }

  lemma {:induction false} BodyKeeps(h: State, t: Handler, i: nat)
    requires i <= |t.body| && h.mode != User && ProperBody(h, t, i)
    ensures Kept(h, RunBody(h, t, i), t.saves)
    decreases t, |t.body| - i
  {
    hide FieldsOf, Honest, Resumes, Enter, RunHandler, Proper;
    if i < |t.body| {
      match t.body[i]
      case Code(next) =>
        HonestKeeps(h, next, t.saves);
        HonestMode(h, next);
        BodyKeeps(next, t, i + 1);
        KeptOn(h, next, RunBody(next, t, i + 1), t.saves);
      case Nested(inner) =>
        var back := RunHandler(h, inner);
        ReturnRestores(h, inner);
        ResumesMode(h, back);
        NestedKeeps(h, inner, t.saves);
        BodyKeeps(back, t, i + 1);
        KeptOn(h, back, RunBody(back, t, i + 1), t.saves);
    } else {
      KeptSelf(h, t.saves);
    }
  }

  lemma KeptSelf(h: State, saves: bool)
    ensures Kept(h, h, saves)
  {
  }

  lemma HonestMode(h: State, next: State)
    requires Honest(h, next)
    ensures next.mode == h.mode
  {
  }

  lemma ResumesMode(h: State, r: State)
    requires Resumes(h, r)
    ensures r.mode == h.mode
  {
  }

  /** The returning instruction finds what the trap left. */
  lemma ReturnState(h: State, t: Handler)
    requires Kept(Enter(h, t), RunBody(Enter(h, t), t, 0), t.saves)
    ensures
      var e, b := Enter(h, t), BeforeReturn(h, t);
      Kept(e, b, false)
  {
    var entry := Enter(h, t);
    if entry.mode == Machine {
      RestoredMachine(entry, RunBody(entry, t, 0));
    } else {
      RestoredSupervisor(entry, RunBody(entry, t, 0));
    }
    hide FieldsOf, Enter, RunBody, Restored;
  }

  /** Every trap is undone by its return, at any depth: the interrupted pc, mode, MIE and SIE
      are back, SRET was legal, and a machine-level handler has not disturbed what a supervisor
      handler below it still needs. */
  lemma {:induction false} ReturnRestores(h: State, t: Handler)
    requires Proper(h, t)
    ensures Resumes(h, RunHandler(h, t))
    ensures Enter(h, t).mode == Supervisor ==> SRetLegal(BeforeReturn(h, t))
    ensures Enter(h, t).mode == Machine ==>
      var f, g := FieldsOf(h.status), FieldsOf(RunHandler(h, t).status);
      g.spie == f.spie && g.spp == f.spp && RunHandler(h, t).csrs[CSR_SEPC] == h.csrs[CSR_SEPC]
    decreases t, |t.body| + 2
  {
    hide Flag, SetFlag, StatusIntoS, StatusIntoM, RunBody, Restored, EntryPc, CauseWord, Has, SetMpp, Enter;
    EnterSeen(h, t);
    BodyKeeps(Enter(h, t), t, 0);
    ReturnState(h, t);
    var b := BeforeReturn(h, t);
    MRetSeen(b);
    SRetSeen(b);
    hide BeforeReturn;
  }

  /** Why saving is asked for: a supervisor handler trapped again at its own level without
      saving returns to its own entry, not to what it interrupted. */
  lemma ReTrapLoses(h: State, t: Handler, inner: Handler)
    requires t.body == [Nested(inner)] && !t.saves && inner.body == []
    requires Enter(h, t).mode == Supervisor && Enter(Enter(h, t), inner).mode == Supervisor
    ensures RunHandler(h, t).pc == Enter(h, t).pc
  {
    hide Flag, SetFlag, StatusIntoS, StatusIntoM, Restored, EntryPc, CauseWord, Has, SetMpp;
    var entry := Enter(h, t);
    EnterSeen(entry, inner);
    var again := Enter(entry, inner);
    hide Enter;
    assert RunBody(again, inner, 0) == again;
    RestoredSupervisor(again, again);
    assert BeforeReturn(entry, inner).csrs[CSR_SEPC] == entry.pc;
    var back := RunHandler(entry, inner);
    assert back.csrs == BeforeReturn(entry, inner).csrs;
    assert RunBody(entry, t, 0) == RunBody(back, t, 1) == back;
    assert BeforeReturn(h, t) == back;
  }
}
