/** Stores into RAM: the address computation, the comparison with the RAM size, the jump over the slow
    path and the fast store do what the interpreter's store does; the slow path is only measured. */
module Stores {
  import opened Wrappers
  import opened Words
  import opened Host
  import opened Allocator
  import opened Emit
  import opened Templates
  import opened Meaning
  import G = Guest

  lemma StoreOperandsHold(a: Alloc, i: G.Inst, f: Frame, m: Machine, g: G.State)
    requires Holds(a, f, m, g) && G.Decoded(i)
    ensures var o := StoreOperands(a, i); Holds(o.a, f, Run(o.code, m), g)
  {
    hide Holds, AllocReg, Run, Allocated, Coherent;
    HoldsCoherent(a, f, m, g);
    var s1 := AllocReg(a, i.rs1, UNLOCKED);
    AllocHolds(a, i.rs1, UNLOCKED, f, m, g);
    HoldsCoherent(s1.a, f, Run(s1.code, m), g);
    var lock := Lock(s1.a.v[i.rs1].host, NoHost);
    AllocHolds(s1.a, i.rs2, lock, f, Run(s1.code, m), g);
    RunStraight(s1.code, AllocReg(s1.a, i.rs2, lock).code, m);
  }

  /** Same machine but for RCX, the flags and RAM. */
  ghost predicate SameButScratch(m: Machine, m': Machine) {
    && m'.mem == m.mem && m'.ramPtr == m.ramPtr && m'.stack == m.stack && m'.cpu.ok == m.cpu.ok
    && (forall r | r != RCX :: Look(m'.cpu, r) == Look(m.cpu, r))
  }

  lemma ScratchHolds(a: Alloc, f: Frame, m: Machine, m': Machine, g: G.State)
    requires Holds(a, f, m, g) && SameButScratch(m, m')
    ensures Holds(a, f, m', g.(ram := m'.ram))
  {
    hide MemFramed;
    assert RegsFramed(f, m'.cpu);
    forall i | 1 <= i < 32 && a.v[i].mapped && a.v[i].host.In?
      ensures Get(m', a.v[i].host.r) == g.x[i]
    {
      Distinct(a, i, i);
    }
  }

  /** x0 as a base never reaches RAM. */
  lemma BaseNotZero(imm: int, memsize: Word)
    requires -2048 <= imm < 2048 && memsize.bits <= 0x8000_0000_0000_0000
    ensures !Below(G.StoreOffset(ZERO, imm), memsize)
  {
    hide ImmWord, Plus, Minus, Below;
    ImmSign(imm);
    var small := ImmWord(if imm >= 0 then imm else -imm);
    Small(if imm >= 0 then imm else -imm);
    HalfGigabyte();
    OffsetBits(small.bits, memsize.bits);
    FarAway(ImmWord(imm), memsize);
  }

  lemma FarAway(w: Word, memsize: Word)
    requires (0 + w.bits) - 0x4000_0000 - 0x4000_0000 >= memsize.bits
    ensures !Below(Minus(Minus(Plus(ZERO, w), W(0x4000_0000)), W(0x4000_0000)), memsize)
  {
  }

  lemma ImmSign(imm: int)
    ensures imm < 0 ==> ImmWord(imm) == W(0 - ImmWord(-imm).bits)
  {
    hide Bits;
  }

  lemma OffsetBits(w: bv64, memsize: bv64)
    requires w < 4096 && memsize <= 0x8000_0000_0000_0000
    ensures (0 + w) - 0x4000_0000 - 0x4000_0000 >= memsize
    ensures (0 + (0 - w)) - 0x4000_0000 - 0x4000_0000 >= memsize
  {
  }

  lemma CheckRuns(i: G.Inst, s1: Reg, f: Frame, m: Machine)
    requires Framed(f, m) && s1 != RCX
    ensures var m' := Run(StoreCheck(i, s1), m);
      && SameButScratch(m, m') && m'.ram == m.ram
      && Get(m', RCX) == G.StoreOffset(Get(m, s1), i.imm)
      && m'.cpu.flags == Compared(Get(m', RCX), MemSizeOf(f))
  {
    hide Run, Step, G.StoreOffset, RunLocal, Framed;
    var four := StoreCheck(i, s1)[..4];
    var cmp := CmpMem(RCX, Ctx(CTX_MEMSIZE));
    OffsetLeaves(i, s1, m.cpu);
    assert four == [MovRR(RCX, s1), AluImm(Add, true, RCX, i.imm),
                    AluImm(Sub, true, RCX, 0x4000_0000), AluImm(Sub, true, RCX, 0x4000_0000)];
    RunIsLocal(four, m);
    var m1 := m.(cpu := RunLocal(four, m.cpu));
    CompareStep(f, m, m1);
    Run1(cmp, m1);
    RunStraight(four, [cmp], m);
    assert StoreCheck(i, s1) == four + [cmp];
  }

  lemma OffsetLeaves(i: G.Inst, s1: Reg, c: Cpu)
    ensures
      var c' := RunLocal([MovRR(RCX, s1), AluImm(Add, true, RCX, i.imm),
                          AluImm(Sub, true, RCX, 0x4000_0000), AluImm(Sub, true, RCX, 0x4000_0000)], c);
      && Look(c', RCX) == G.StoreOffset(Look(c, s1), i.imm) && c'.ok == c.ok
      && (forall r | r != RCX :: Look(c', r) == Look(c, r))
  {
    hide RunLocal, Plus, Minus, ImmWord;
    var a, b := [MovRR(RCX, s1), AluImm(Add, true, RCX, i.imm)],
                [AluImm(Sub, true, RCX, 0x4000_0000), AluImm(Sub, true, RCX, 0x4000_0000)];
    RunAppendLocal(a, b, c);
    Run2Local(a[0], a[1], c);
    Run2Local(b[0], b[1], RunLocal(a, c));
    assert a + b == [MovRR(RCX, s1), AluImm(Add, true, RCX, i.imm),
                     AluImm(Sub, true, RCX, 0x4000_0000), AluImm(Sub, true, RCX, 0x4000_0000)];
  }

  lemma CompareStep(f: Frame, m: Machine, m1: Machine)
    requires Framed(f, m) && SameButScratch(m, m1)
    ensures Step(CmpMem(RCX, Ctx(CTX_MEMSIZE)), m1)
         == m1.(cpu := m1.cpu.(flags := Compared(Get(m1, RCX), MemSizeOf(f))))
  {
    hide Framed, Step;
    FramedCtx(f, m);
    assert Look(m1.cpu, R12) == Look(m.cpu, R12);
    StepCmpMem(RCX, Ctx(CTX_MEMSIZE), m1);
  }

  lemma StepCmpMem(l: Reg, a: Mem, m: Machine)
    requires a.index.None? && Addr(m, a) in m.mem
    ensures Step(CmpMem(l, a), m) == m.(cpu := m.cpu.(flags := Compared(Get(m, l), m.mem[Addr(m, a)])))
  {
  }

  lemma FramedCtx(f: Frame, m: Machine)
    requires Framed(f, m)
    ensures var k := Slot(f.ctx, CTX_MEMSIZE);
      Get(m, R12) == f.ctx && k in m.mem && m.mem[k] == MemSizeOf(f)
  {
  }

  /** The fast path. */
  lemma FastRuns(i: G.Inst, s2: Reg, m: Machine)
    requires Get(m, R14) == m.ramPtr && s2 != RCX
    ensures var m' := Run(StoreFast(i, s2), m);
      && SameButScratch(m, m')
      && m'.ram == G.StoreBytes(m.ram, Get(m, RCX), G.StoreWidth(i.op), if i.rs2 == 0 then ZERO else Get(m, s2))
  {
    hide Run, Step, G.StoreBytes, G.StoreWidth;
    var target := Mem(R14, Some(RCX), 0, 0);
    if i.rs2 == 0 {
      FastZero(G.StoreWidth(i.op), target, m);
    } else {
      StepStoreRam(G.StoreWidth(i.op), s2, m);
      Run1(Store(G.StoreWidth(i.op), s2, target), m);
    }
  }

  /** x0 has no host register: RAX is borrowed and restored. */
  lemma FastZero(width: nat, target: Mem, m: Machine)
    requires Get(m, R14) == m.ramPtr && target == Mem(R14, Some(RCX), 0, 0)
    ensures var m' := Run([Push(RAX), AluRR(Xor, true, RAX, RAX), Store(width, RAX, target), Pop(RAX)], m);
      SameButScratch(m, m') && m'.ram == G.StoreBytes(m.ram, Get(m, RCX), width, ZERO)
  {
    hide Run, Step, G.StoreBytes;
    var m1 := m.(stack := [Get(m, RAX)] + m.stack);
    var m2 := m1.(cpu := PutArith(m1.cpu, RAX, ZERO));
    var m3 := m2.(ram := G.StoreBytes(m.ram, Get(m, RCX), width, ZERO));
    StepPush(RAX, m);
    StepZero(RAX, m1);
    StepStoreRam(width, RAX, m2);
    StepPop(RAX, m3);
    Run4(Push(RAX), AluRR(Xor, true, RAX, RAX), Store(width, RAX, target), Pop(RAX), m);
    assert m3.stack[1..] == m.stack;
  }

  lemma StepPush(r: Reg, m: Machine)
    ensures Step(Push(r), m) == m.(stack := [Get(m, r)] + m.stack)
  {
  }

  lemma StepPop(r: Reg, m: Machine)
    requires m.stack != []
    ensures Step(Pop(r), m) == Set(m, r, m.stack[0]).(stack := m.stack[1..])
  {
  }

  lemma StepZero(r: Reg, m: Machine)
    ensures Step(AluRR(Xor, true, r, r), m) == m.(cpu := PutArith(m.cpu, r, ZERO))
  {
    hide BitXor;
    BitwiseZero(Get(m, r));
  }

  lemma StepStoreRam(width: nat, s: Reg, m: Machine)
    requires Get(m, R14) == m.ramPtr
    ensures Step(Store(width, s, Mem(R14, Some(RCX), 0, 0)), m)
         == m.(ram := G.StoreBytes(m.ram, Get(m, RCX), width, Get(m, s)))
  {
    hide G.StoreBytes;
  }

  lemma Run4(a: Inst, b: Inst, c: Inst, d: Inst, m: Machine)
    requires Straight([a, b, c, d])
    ensures Run([a, b, c, d], m) == Step(d, Step(c, Step(b, Step(a, m))))
  {
    hide Step, Run;
    var s := [a, b, c, d];
    assert a == s[0] && b == s[1] && c == s[2] && d == s[3];
    RunStraight([a, b, c], [d], m);
    RunStraight([a, b], [c], m);
    RunStraight([a], [b], m);
    Run1(a, m);
    Run1(b, Step(a, m));
    Run1(c, Step(b, Step(a, m)));
    Run1(d, Step(c, Step(b, Step(a, m))));
    assert [a] + [b] == [a, b] && [a, b] + [c] == [a, b, c] && [a, b, c] + [d] == s;
  }

  lemma {:induction false} SkipAll(a: seq<Inst>, b: seq<Inst>)
    ensures Skip(a + b, SizeAll(a)) == Some(b)
    decreases |a|
  {
    if a == [] {
      assert a + b == b;
    } else {
      assert (a + b)[1..] == a[1..] + b;
      SkipAll(a[1..], b);
    }
  }

  lemma JumpTaken(j: Inst, a: seq<Inst>, b: seq<Inst>, m: Machine)
    requires j.Jbe8? && j.rel == SizeAll(a)
    requires m.cpu.flags.Compared? && !Below(m.cpu.flags.r, m.cpu.flags.l)
    ensures Run([j] + (a + b), m) == Run(b, m)
  {
    hide Below;
    assert ([j] + (a + b))[1..] == a + b;
    SkipAll(a, b);
  }

  /** The jump over the slow path is taken when the offset is at most the size of RAM. */
  lemma BodyRuns(i: G.Inst, s1: Reg, s2: Reg, f: Frame, m: Machine)
    requires Framed(f, m) && s1 != RCX && s2 != RCX
    requires !Below(MemSizeOf(f), G.StoreOffset(Get(m, s1), i.imm))
    ensures Run(StoreBody(i, s1, s2), m) == Run(StoreFast(i, s2), Run(StoreCheck(i, s1), m))
  {
    hide StoreFast, StoreSlow, StoreCheck, Framed, G.StoreOffset, Below, SameButScratch, Run, Straight, SizeAll;
    var fast := StoreFast(i, s2);
    var slow := StoreSlow(i, s2, SizeAll(fast));
    var jbe := Jbe8(SizeAll(slow));
    CheckRuns(i, s1, f, m);
    CheckStraight(i, s1);
    RunStraight(StoreCheck(i, s1), [jbe] + (slow + fast), m);
    JumpTaken(jbe, slow, fast, Run(StoreCheck(i, s1), m));
    assert StoreBody(i, s1, s2) == StoreCheck(i, s1) + ([jbe] + (slow + fast));
  }

  lemma CheckStraight(i: G.Inst, s1: Reg)
    ensures Straight(StoreCheck(i, s1))
  {
  }

  lemma StoreHolds(a: Alloc, i: G.Inst, f: Frame, m: Machine, g: G.State)
    requires Holds(a, f, m, g) && G.Decoded(i) && G.IsStore(i.op)
    requires MemSizeOf(f).bits <= 0x8000_0000_0000_0000 && G.InRam(g, i, MemSizeOf(f))
    ensures var r := EmitInst(a, i); Holds(r.a, f, Run(r.code, m), G.Exec(g, i))
  {
    hide Holds, StoreOperands, Run, Coherent, StoreBody, StoreFast, StoreCheck, G.StoreBytes, G.StoreOffset, G.StoreWidth;
    HoldsCoherent(a, f, m, g);
    var o := StoreOperands(a, i);
    StoreOperandsHold(a, i, f, m, g);
    var m1 := Run(o.code, m);
    HoldsCoherent(o.a, f, m1, g);
    BaseNotZero(i.imm, MemSizeOf(f));
    InRamBelow(g, i, MemSizeOf(f));
    BelowAsym(G.StoreOffset(G.Reg(g, i.rs1), i.imm), MemSizeOf(f));
    assert i.rs1 != 0;
    var s1, s2 := Seen(o.a.v[i.rs1].host), Seen(o.a.v[i.rs2].host);
    SourceHolds(i.rs1, o.a, f, m1, g);
    SourceHolds(i.rs2, o.a, f, m1, g);
    BodyRuns(i, s1, s2, f, m1);
    CheckRuns(i, s1, f, m1);
    var m2 := Run(StoreCheck(i, s1), m1);
    RamPointer(f, m1, m2);
    FastRuns(i, s2, m2);
    var m3 := Run(StoreFast(i, s2), m2);
    RunStraight(o.code, StoreBody(i, s1, s2), m);
    ScratchHolds(o.a, f, m1, m3, g);
    HoldsRam(o.a, f, m1, g);
  }

  lemma HoldsRam(a: Alloc, f: Frame, m: Machine, g: G.State)
    requires Holds(a, f, m, g)
    ensures m.ram == g.ram
  {
  }

  lemma RamPointer(f: Frame, m: Machine, m': Machine)
    requires Framed(f, m) && SameButScratch(m, m')
    ensures Get(m', R14) == m'.ramPtr
  {
  }

  lemma InRamBelow(g: G.State, i: G.Inst, memsize: Word)
    requires G.Valid(g) && G.Decoded(i) && G.InRam(g, i, memsize)
    ensures Below(G.StoreOffset(G.Reg(g, i.rs1), i.imm), memsize)
  {
    hide G.StoreOffset, Below;
    assert 1 <= G.StoreWidth(i.op);
  }

  lemma BelowAsym(a: Word, b: Word)
    requires Below(a, b)
    ensures !Below(b, a)
  {
  }

  lemma SourceHolds(r: nat, o: Alloc, f: Frame, m: Machine, g: G.State)
    requires Holds(o, f, m, g) && r < 32 && (r != 0 ==> o.v[r].mapped)
    ensures Seen(o.v[r].host) != RCX
    ensures r != 0 ==> Get(m, Seen(o.v[r].host)) == G.Reg(g, r)
  {
    if r != 0 { Distinct(o, r, r); }
  }
}
