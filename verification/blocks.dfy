/** Meaning preservation for whole compiled blocks: prologue, one translation after another, write-backs
    and return, against interpreting the block's instructions in order from the same state. */
module Blocks {
  import opened Wrappers
  import opened Words
  import opened Host
  import opened Allocator
  import opened Emit
  import opened Templates
  import opened Meaning
  import opened Stores
  import G = Guest

  /**
   * What the block theorem asks of an instruction: an ALU instruction the emitters translate
   * faithfully, or a store into RAM.
   */
  ghost predicate Covered(i: G.Inst, a: Alloc, g: G.State, memsize: Word)
    requires Coherent(a) && G.Decoded(i) && G.Valid(g)
  {
    if G.IsStore(i.op) then G.InRam(g, i, memsize) else Faithful(i, a)
  }

  ghost predicate AllCovered(code: seq<G.Inst>, g: G.State, memsize: Word)
    requires G.Valid(g) && forall i <- code :: G.Decoded(i)
  {
    code == [] ||
    var n := |code| - 1;
    AllCovered(code[..n], g, memsize) &&
    Covered(code[n], Compile(code[..n]).a, G.ExecAll(g, code[..n]), memsize)
  }

  lemma EmitHolds(a: Alloc, i: G.Inst, f: Frame, m: Machine, g: G.State)
    requires Holds(a, f, m, g) && G.Decoded(i) && MemSizeOf(f).bits <= 0x8000_0000_0000_0000
    requires Coherent(a) && G.Valid(g) && Covered(i, a, g, MemSizeOf(f))
    ensures var r := EmitInst(a, i); Holds(r.a, f, Run(r.code, m), G.Exec(g, i))
  {
    hide Coherent, Run, Operands, G.Value;
    if G.IsStore(i.op) {
      StoreHolds(a, i, f, m, g);
    } else if i.rd != 0 {
      AluHolds(a, i, f, m, g);
    } else {
      RunNil(m);
      var g' := G.Exec(g, i);
      assert forall k | 1 <= k < 32 :: g'.x[k] == g.x[k];
    }
  }

  lemma EmitClosed(a: Alloc, i: G.Inst)
    requires Coherent(a) && G.Decoded(i)
    ensures Closed(EmitInst(a, i).code)
  {
    hide Operands, StoreOperands, Template, StoreBody, Closed;
    if G.IsStore(i.op) {
      var o := StoreOperands(a, i);
      StraightClosed(o.code);
      var s1, s2 := Seen(o.a.v[i.rs1].host), Seen(o.a.v[i.rs2].host);
      StoreBodyClosed(i, s1, s2);
      ClosedAppend(o.code, StoreBody(i, s1, s2));
    } else if i.rd == 0 {
      ClosedNil();
    } else {
      var o := Operands(a, i);
      StraightClosed(o.code);
      var d, s1, s2 := Seen(o.a.v[i.rd].host), Seen(o.a.v[i.rs1].host), Seen(o.a.v[i.rs2].host);
      TemplateClosed(i, d, s1, s2);
      ClosedAppend(o.code, Template(i, d, s1, s2));
    }
  }

  lemma ClosedNil()
    ensures Closed([])
  {
  }

  lemma StraightConcat(a: seq<Inst>, b: seq<Inst>)
    requires Straight(a) && Straight(b)
    ensures Straight(a + b)
  {
  }

  lemma TemplateClosed(i: G.Inst, d: Reg, s1: Reg, s2: Reg)
    requires !G.IsStore(i.op)
    ensures Closed(Template(i, d, s1, s2))
  {
    hide Body, Closed, Shortcuts, G.IsImm, Straight;
    BodyStraight(i, d, s1, s2);
    MovesStraight(d, s1, i.imm);
    MovesStraight(d, s2, i.imm);
    StraightClosed(Template(i, d, s1, s2));
  }

  lemma MovesStraight(d: Reg, s: Reg, imm: int)
    ensures Straight([AluRR(Xor, true, d, d)]) && Straight([MovRR(d, s)]) && Straight([MovImm32(d, imm)])
  {
  }

  lemma BodyStraight(i: G.Inst, d: Reg, s1: Reg, s2: Reg)
    requires !G.IsStore(i.op)
    ensures Straight(Body(i, d, s1, s2))
  {
    if IsCompare(i.op) {
      ZeroIfStraight(i, s1, s2);
      hide ZeroIf, Straight, Compare;
      var setcc := if Signed(i.op) then Setl(d) else Setb(d);
      CompareStraight(i.imm, s1, s2, setcc, d);
      CompareStraight(i.imm, s1, RCX, setcc, d);
      StraightConcat(ZeroIf(i.rs1 == 0, s1), [MovImm64(RCX, i.imm)]);
      StraightConcat(ZeroIf(i.rs1 == 0, s1), ZeroIf(i.rs2 == 0, s2));
      StraightConcat(ZeroIf(i.rs1 == 0, s1) + [MovImm64(RCX, i.imm)], Compare(s1, RCX, setcc, d));
      StraightConcat(ZeroIf(i.rs1 == 0, s1) + ZeroIf(i.rs2 == 0, s2), Compare(s1, s2, setcc, d));
    } else {
      BodyWrites(i, d, s1, s2);
      hide Body;
      assert forall x <- Body(i, d, s1, s2) :: Writes(x, d, Clobber(i)) ==> IsLocal(x);
    }
  }

  lemma ZeroIfStraight(i: G.Inst, s1: Reg, s2: Reg)
    ensures Straight(ZeroIf(i.rs1 == 0, s1)) && Straight(ZeroIf(i.rs2 == 0, s2))
  {
  }

  lemma CompareStraight(imm: int, l: Reg, r: Reg, setcc: Inst, d: Reg)
    requires setcc.Setl? || setcc.Setb?
    ensures Straight(Compare(l, r, setcc, d)) && Straight([MovImm64(RCX, imm)])
  {
  }

  /** A jump over `a` into `b`. */
  lemma JumpClosed(j: Inst, a: seq<Inst>, b: seq<Inst>)
    requires (j.Jbe8? || j.Jmp8?) && j.rel == SizeAll(a) && Closed(a + b)
    ensures Closed([j] + (a + b))
  {
    SkipAll(a, b);
    assert ([j] + (a + b))[1..] == a + b;
  }

  lemma StoreBodyClosed(i: G.Inst, s1: Reg, s2: Reg)
    ensures Closed(StoreBody(i, s1, s2))
  {
    hide StoreFast, StoreSlow, StoreCheck, Closed, SizeAll, Straight;
    var fast := StoreFast(i, s2);
    var slow := StoreSlow(i, s2, SizeAll(fast));
    var jbe := Jbe8(SizeAll(slow));
    StorePartsStraight(i, s1, s2);
    SlowFastClosed(i, s2);
    StraightClosed(StoreCheck(i, s1));
    JumpClosed(jbe, slow, fast);
    ClosedAppend(StoreCheck(i, s1), [jbe] + (slow + fast));
    assert StoreBody(i, s1, s2) == StoreCheck(i, s1) + ([jbe] + (slow + fast));
  }

  lemma SlowFastClosed(i: G.Inst, s2: Reg)
    ensures var fast := StoreFast(i, s2); Closed(StoreSlow(i, s2, SizeAll(fast)) + fast)
  {
    hide StoreFast, StoreSlow, Closed, SizeAll, Straight;
    var fast := StoreFast(i, s2);
    var slow := StoreSlow(i, s2, SizeAll(fast));
    var jmp := Jmp8(SizeAll(fast));
    StorePartsStraight(i, RAX, s2);
    var calls := slow[..13];
    StraightClosed(fast);
    StraightClosed(calls);
    assert fast + [] == fast;
    JumpClosed(jmp, fast, []);
    ClosedAppend(calls, [jmp] + fast);
    assert calls + ([jmp] + fast) == slow + fast;
  }

  lemma StorePartsStraight(i: G.Inst, s1: Reg, s2: Reg)
    ensures Straight(StoreFast(i, s2)) && Straight(StoreCheck(i, s1))
    ensures var slow := StoreSlow(i, s2, SizeAll(StoreFast(i, s2)));
      |slow| == 14 && slow == slow[..13] + [Jmp8(SizeAll(StoreFast(i, s2)))] && Straight(slow[..13])
  {
  }

  /** The body of a block, for any length. */
  lemma {:induction false} BodyHolds(code: seq<G.Inst>, f: Frame, m: Machine, g: G.State)
    requires Holds(Fresh(), f, m, g) && MemSizeOf(f).bits <= 0x8000_0000_0000_0000
    requires (forall i <- code :: G.Decoded(i)) && AllCovered(code, g, MemSizeOf(f))
    ensures var b := Compile(code);
      Closed(b.code) && Holds(b.a, f, Run(b.code, m), G.ExecAll(g, code))
    decreases |code|
  {
    hide Holds, Run, EmitInst, Covered, Closed, G.Exec, Coherent;
    HoldsCoherent(Fresh(), f, m, g);
    if code == [] {
      RunNil(m);
      ClosedNil();
    } else {
      var n := |code| - 1;
      var prev := Compile(code[..n]);
      BodyHolds(code[..n], f, m, g);
      var m1, g1 := Run(prev.code, m), G.ExecAll(g, code[..n]);
      EmitHolds(prev.a, code[n], f, m1, g1);
      EmitClosed(prev.a, code[n]);
      RunAppend(prev.code, EmitInst(prev.a, code[n]).code, m);
      ClosedAppend(prev.code, EmitInst(prev.a, code[n]).code);
      ExecLast(g, code);
    }
  }

  lemma {:induction false} ExecLast(g: G.State, code: seq<G.Inst>)
    requires G.Valid(g) && code != [] && forall i <- code :: G.Decoded(i)
    ensures var n := |code| - 1;
      G.ExecAll(g, code) == G.Exec(G.ExecAll(g, code[..n]), code[n])
    decreases |code|
  {
    hide G.Exec;
    var n := |code| - 1;
    if n > 0 {
      ExecLast(G.Exec(g, code[0]), code[1..]);
      assert code[..n][1..] == code[1..][..n - 1] && code[..n][0] == code[0];
    }
  }

  /** How `Hart::tick` enters compiled code: RDI points at the hart context, which leads to the rest. */
  ghost predicate Entry(ctx: Word, file: Word, m: Machine, g: G.State) {
    && m.cpu.ok && G.Valid(g) && m.ram == g.ram
    && ctx != file && Get(m, RDI) == ctx
    && Slot(ctx, CTX_REGS) in m.mem && m.mem[Slot(ctx, CTX_REGS)] == file
    && Slot(ctx, CTX_RAM) in m.mem && m.mem[Slot(ctx, CTX_RAM)] == m.ramPtr
    && Slot(ctx, CTX_MEMSIZE) in m.mem && m.mem[Slot(ctx, CTX_MEMSIZE)].bits <= 0x8000_0000_0000_0000
    && (forall i | 0 <= i < 32 :: HomeKey(file, i) in m.mem)
    && (forall i | 1 <= i < 32 :: m.mem[HomeKey(file, i)] == g.x[i])
  }

  /**
   * What the caller sees when compiled code returns: the guest registers and RAM of `g'`, nothing else
   * in memory changed, callee-saved registers and the stack as they were.
   */
  ghost predicate Returned(file: Word, m: Machine, m': Machine, g': G.State) {
    && m'.cpu.ok && G.Valid(g') && m'.ram == g'.ram && m'.stack == m.stack
    && m'.mem.Keys == m.mem.Keys
    && (forall i | 1 <= i < 32 :: HomeKey(file, i) in m'.mem && m'.mem[HomeKey(file, i)] == g'.x[i])
    && (forall k | k in m'.mem && (k.obj != file || k.disp == 0) :: m'.mem[k] == m.mem[k])
    && (forall r | Reserved(r) :: Get(m', r) == Get(m, r))
  }

  /** The machine after the prologue. */
  function Entered(ctx: Word, file: Word, m: Machine): Machine {
    m.(stack := [Get(m, R14), Get(m, R13), Get(m, R12)] + m.stack,
       cpu := Put(Put(Put(m.cpu, R12, ctx), R13, file), R14, m.ramPtr))
  }

  lemma PrologueRuns(ctx: Word, file: Word, m: Machine, g: G.State)
    requires Entry(ctx, file, m, g)
    ensures Run(PROLOGUE, m) == Entered(ctx, file, m) && Closed(PROLOGUE)
  {
    var pushes, loads := [Push(R12), Push(R13), Push(R14)],
                         [MovRR(R12, RDI), Load(R13, Ctx(CTX_REGS)), Load(R14, Ctx(CTX_RAM))];
    assert PROLOGUE == pushes + loads;
    assert Straight(PROLOGUE);
    StraightClosed(PROLOGUE);
    PushesRun(m);
    LoadsRun(ctx, file, m, Run(pushes, m), g);
    hide Run;
    RunStraight(pushes, loads, m);
  }

  lemma PushesRun(m: Machine)
    ensures Run([Push(R12), Push(R13), Push(R14)], m)
         == m.(stack := [Get(m, R14), Get(m, R13), Get(m, R12)] + m.stack)
  {
    hide Run, Step;
    var m1 := m.(stack := [Get(m, R12)] + m.stack);
    var m2 := m1.(stack := [Get(m, R13)] + m1.stack);
    var m3 := m2.(stack := [Get(m, R14)] + m2.stack);
    StepPush(R12, m);
    StepPush(R13, m1);
    StepPush(R14, m2);
    Run3(Push(R12), Push(R13), Push(R14), m);
    assert m3.stack == [Get(m, R14), Get(m, R13), Get(m, R12)] + m.stack;
  }

  lemma LoadsRun(ctx: Word, file: Word, m: Machine, m0: Machine, g: G.State)
    requires Entry(ctx, file, m, g) && m0.cpu == m.cpu && m0.mem == m.mem && m0.ramPtr == m.ramPtr
    ensures Run([MovRR(R12, RDI), Load(R13, Ctx(CTX_REGS)), Load(R14, Ctx(CTX_RAM))], m0)
         == m0.(cpu := Put(Put(Put(m.cpu, R12, ctx), R13, file), R14, m.ramPtr))
  {
    hide Run, Step;
    var m1 := Set(m0, R12, ctx);
    var m2 := Set(m1, R13, file);
    StepMove(R12, RDI, m0);
    StepLoadSlot(R13, Ctx(CTX_REGS), m1);
    StepLoadSlot(R14, Ctx(CTX_RAM), m2);
    Run3(MovRR(R12, RDI), Load(R13, Ctx(CTX_REGS)), Load(R14, Ctx(CTX_RAM)), m0);
  }

  lemma StepMove(d: Reg, s: Reg, m: Machine)
    ensures Step(MovRR(d, s), m) == Set(m, d, Get(m, s))
  {
  }

  lemma StepLoadSlot(d: Reg, a: Mem, m: Machine)
    requires a.index.None? && Addr(m, a) in m.mem
    ensures Step(Load(d, a), m) == Set(m, d, m.mem[Addr(m, a)])
  {
  }

  lemma Run3(a: Inst, b: Inst, c: Inst, m: Machine)
    requires Straight([a, b, c])
    ensures Run([a, b, c], m) == Step(c, Step(b, Step(a, m)))
  {
    hide Step, Run;
    var s := [a, b, c];
    assert a == s[0] && b == s[1] && c == s[2];
    RunStraight([a, b], [c], m);
    RunStraight([a], [b], m);
    Run1(a, m);
    Run1(b, Step(a, m));
    Run1(c, Step(b, Step(a, m)));
    assert [a] + [b] == [a, b] && [a, b] + [c] == s;
  }

  /** The allocator starts empty, so every guest register is at home. */
  lemma EnteredHolds(ctx: Word, file: Word, m: Machine, g: G.State)
    requires Entry(ctx, file, m, g)
    ensures var f := Frame(ctx, file, Entered(ctx, file, m));
      Holds(Fresh(), f, f.entry, g) && MemSizeOf(f) == m.mem[Slot(ctx, CTX_MEMSIZE)]
  {
    FreshCoherent();
    hide Coherent;
  }

  /** Homes of guest registers below `k` are current. */
  ghost predicate Written(k: nat, file: Word, mem: map<Slot, Word>, g: G.State)
    requires G.Valid(g)
  {
    forall i | 1 <= i < k && i < 32 :: HomeKey(file, i) in mem && mem[HomeKey(file, i)] == g.x[i]
  }

  lemma StoreHome(a: Alloc, k: nat, f: Frame, m: Machine, g: G.State)
    requires Holds(a, f, m, g) && 1 <= k < 32 && a.v[k].mapped && Written(k, f.file, m.mem, g)
    ensures a.v[k].host.In?
    ensures var m' := Step(Store(8, a.v[k].host.r, Home(k)), m);
      Holds(a, f, m', g) && Written(k + 1, f.file, m'.mem, g)
  {
    hide Step, Framed;
    Distinct(a, k, k);
    hide Coherent;
    StepStore(f, m, a.v[k].host.r, k);
    PutFramed(f, m, k, g.x[k]);
  }

  lemma CleanHome(a: Alloc, k: nat, f: Frame, m: Machine, g: G.State)
    requires Holds(a, f, m, g) && k < 32 && Written(k, f.file, m.mem, g)
    requires !(a.v[k].mapped && a.v[k].dirty && !a.v[k].isZero)
    ensures Written(k + 1, f.file, m.mem, g)
  {
    hide Framed, InRegs;
  }

  lemma ZeroClean(a: Alloc)
    requires Coherent(a)
    ensures !a.v[0].dirty
  {
  }

  lemma {:induction false} WriteBackRuns(a: Alloc, k: nat, f: Frame, m: Machine, g: G.State)
    requires Holds(a, f, m, g) && k <= 32 && Written(k, f.file, m.mem, g)
    ensures Straight(WriteBack(a, k))
    ensures var m' := Run(WriteBack(a, k), m); Holds(a, f, m', g) && Written(32, f.file, m'.mem, g)
    decreases 32 - k
  {
    hide Run, Step, Holds, Coherent, Written;
    HoldsCoherent(a, f, m, g);
    ZeroClean(a);
    if k == 32 {
      RunNil(m);
    } else if a.v[k].mapped && a.v[k].dirty && !a.v[k].isZero {
      StoreHome(a, k, f, m, g);
      var s := Store(8, a.v[k].host.r, Home(k));
      Run1(s, m);
      WriteBackRuns(a, k + 1, f, Step(s, m), g);
      RunStraight([s], WriteBack(a, k + 1), m);
    } else {
      CleanHome(a, k, f, m, g);
      WriteBackRuns(a, k + 1, f, m, g);
      assert [] + WriteBack(a, k + 1) == WriteBack(a, k + 1);
    }
  }

  lemma LeaveRuns(m: Machine, r12: Word, r13: Word, r14: Word, stack: seq<Word>)
    requires m.stack == [r14, r13, r12] + stack
    ensures Run(LEAVE, m)
         == m.(stack := stack, cpu := Put(Put(Put(m.cpu, R14, r14), R13, r13), R12, r12))
  {
    hide Run, Step, Put, Straight;
    var m1 := m.(stack := [r13, r12] + stack, cpu := Put(m.cpu, R14, r14));
    var m2 := m1.(stack := [r12] + stack, cpu := Put(m1.cpu, R13, r13));
    var m3 := m2.(stack := stack, cpu := Put(m2.cpu, R12, r12));
    PopStep(R14, m, r14, m1.stack);
    PopStep(R13, m1, r13, m2.stack);
    PopStep(R12, m2, r12, stack);
    LeaveSteps(m);
  }

  lemma LeaveSteps(m: Machine)
    ensures Run(LEAVE, m) == Step(Pop(R12), Step(Pop(R13), Step(Pop(R14), m)))
  {
    hide Run, Step;
    var pops := [Pop(R14), Pop(R13), Pop(R12)];
    assert LEAVE == pops + [Ret];
    Run3(Pop(R14), Pop(R13), Pop(R12), m);
    RunStraight(pops, [Ret], m);
    RunRet(Run(pops, m));
  }

  lemma PopStep(r: Reg, m: Machine, top: Word, rest: seq<Word>)
    requires m.stack == [top] + rest
    ensures Step(Pop(r), m) == m.(stack := rest, cpu := Put(m.cpu, r, top))
  {
    hide Step, Put;
    StepPop(r, m);
    assert m.stack[1..] == rest;
  }

  lemma RunRet(m: Machine)
    ensures Run([Ret], m) == m
  {
  }

  /** From the end of the prologue to the last write-back. */
  lemma BodyAndBack(code: seq<G.Inst>, f: Frame, g: G.State)
    requires forall i <- code :: G.Decoded(i)
    requires Holds(Fresh(), f, f.entry, g) && MemSizeOf(f).bits <= 0x8000_0000_0000_0000
    requires AllCovered(code, g, MemSizeOf(f))
    ensures var b := Compile(code);
      var back := WriteBack(b.a, 0);
      var m' := Run(back, Run(b.code, f.entry));
      && Closed(b.code) && Straight(back)
      && Holds(b.a, f, m', G.ExecAll(g, code)) && Written(32, f.file, m'.mem, G.ExecAll(g, code))
  {
    hide Run, Holds, Compile, Closed, AllCovered, G.ExecAll;
    HoldsCoherent(Fresh(), f, f.entry, g);
    var b := Compile(code);
    BodyHolds(code, f, f.entry, g);
    HoldsCoherent(b.a, f, Run(b.code, f.entry), G.ExecAll(g, code));
    WriteBackRuns(b.a, 0, f, Run(b.code, f.entry), G.ExecAll(g, code));
  }

  /** Prologue, closed body, straight write-backs, and the way out, as one run. */
  lemma RunParts(body: seq<Inst>, back: seq<Inst>, m: Machine)
    requires Closed(PROLOGUE) && Closed(body) && Straight(back)
    ensures Run(PROLOGUE + body + back + LEAVE, m)
         == Run(LEAVE, Run(back, Run(body, Run(PROLOGUE, m))))
  {
    hide Run, Closed;
    RunAppend(PROLOGUE, body + (back + LEAVE), m);
    RunAppend(body, back + LEAVE, Run(PROLOGUE, m));
    RunStraight(back, LEAVE, Run(body, Run(PROLOGUE, m)));
    assert PROLOGUE + body + back + LEAVE == PROLOGUE + (body + (back + LEAVE));
  }

  /**
   * Meaning preservation: running the compiled function leaves guest x1..x31 and RAM exactly as
   * interpreting the block does, for every block length, allocation pattern and initial state.
   */
  lemma BlockMeaning(code: seq<G.Inst>, ctx: Word, file: Word, m: Machine, g: G.State)
    requires forall i <- code :: G.Decoded(i)
    requires Entry(ctx, file, m, g) && AllCovered(code, g, m.mem[Slot(ctx, CTX_MEMSIZE)])
    ensures Returned(file, m, Run(Function(code), m), G.ExecAll(g, code))
  {
    hide Run, Holds, Compile, Closed, AllCovered, G.ExecAll, Entry, Framed, Returned, Written, Put, WriteBack;
    EntryFacts(ctx, file, m, g);
    var f := Frame(ctx, file, Entered(ctx, file, m));
    var b := Compile(code);
    PrologueRuns(ctx, file, m, g);
    EnteredHolds(ctx, file, m, g);
    BodyAndBack(code, f, g);
    var m2 := Run(WriteBack(b.a, 0), Run(b.code, f.entry));
    RunParts(b.code, WriteBack(b.a, 0), m);
    HoldsCoherent(b.a, f, m2, G.ExecAll(g, code));
    HoldsRam(b.a, f, m2, G.ExecAll(g, code));
    FramedStack(f, m2);
    LeaveRuns(m2, Get(m, R12), Get(m, R13), Get(m, R14), m.stack);
    LeaveReturned(ctx, file, m, m2, G.ExecAll(g, code));
  }

  lemma EntryFacts(ctx: Word, file: Word, m: Machine, g: G.State)
    requires Entry(ctx, file, m, g)
    ensures G.Valid(g) && Slot(ctx, CTX_MEMSIZE) in m.mem
    ensures m.mem[Slot(ctx, CTX_MEMSIZE)].bits <= 0x8000_0000_0000_0000
  {
  }

  lemma FramedStack(f: Frame, m: Machine)
    requires Framed(f, m)
    ensures m.stack == f.entry.stack
  {
  }

  predicate Untouched(r: Reg) { r.RBX? || r.RSP? || r.RBP? || r.R15? }

  lemma UntouchedKept(f: Frame, m: Machine, c: Cpu, r: Reg)
    requires RegsFramed(f, c) && f.entry.cpu == Put(Put(Put(m.cpu, R12, f.ctx), R13, f.file), R14, f.entry.ramPtr)
    requires Untouched(r)
    ensures Look(c, r) == Get(m, r)
  {
    assert Look(c, r) == Get(f.entry, r);
  }

  lemma LeaveRegs(f: Frame, m: Machine, c: Cpu)
    requires RegsFramed(f, c) && f.entry.cpu == Put(Put(Put(m.cpu, R12, f.ctx), R13, f.file), R14, f.entry.ramPtr)
    ensures var c' := Put(Put(Put(c, R14, Get(m, R14)), R13, Get(m, R13)), R12, Get(m, R12));
      forall r | Reserved(r) :: Look(c', r) == Get(m, r)
  {
    hide RegsFramed;
    forall r | Untouched(r) ensures Look(c, r) == Get(m, r) {
      UntouchedKept(f, m, c, r);
    }
  }

  lemma LeaveReturned(ctx: Word, file: Word, m: Machine, m2: Machine, g': G.State)
    requires G.Valid(g') && m2.ram == g'.ram && Written(32, file, m2.mem, g')
    requires Framed(Frame(ctx, file, Entered(ctx, file, m)), m2)
    ensures Returned(file, m,
      m2.(stack := m.stack,
          cpu := Put(Put(Put(m2.cpu, R14, Get(m, R14)), R13, Get(m, R13)), R12, Get(m, R12))), g')
  {
    LeaveRegs(Frame(ctx, file, Entered(ctx, file, m)), m, m2.cpu);
    hide Look, RegsFramed, Reserved;
  }
}
