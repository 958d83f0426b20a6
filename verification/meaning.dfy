/** Compiled code computes what the interpreter computes: the agreement between host machine and guest
    state, and that allocation, spilling, loading and every ALU instruction's template preserve it. */
module Meaning {
  import opened Wrappers
  import opened Words
  import opened Host
  import opened Allocator
  import opened Emit
  import opened Templates
  import G = Guest

  /** The machine as the prologue left it; `file` points at the guest registers, `ctx` at the hart context. */
  datatype Frame = Frame(ctx: Word, file: Word, entry: Machine)

  /** The slot that is the home of guest register `r`. */
  function HomeKey(file: Word, r: nat): Slot { Slot(file, 8 * r) }

  function MemSizeOf(f: Frame): Word {
    if Slot(f.ctx, CTX_MEMSIZE) in f.entry.mem then f.entry.mem[Slot(f.ctx, CTX_MEMSIZE)] else ZERO
  }

  ghost predicate FrameOk(f: Frame) {
    && f.ctx != f.file && Slot(f.ctx, CTX_MEMSIZE) in f.entry.mem
    && (forall i | 0 <= i < 32 :: HomeKey(f.file, i) in f.entry.mem)
  }

  /** The pointer registers are set up, the callee-saved ones untouched. */
  ghost predicate RegsFramed(f: Frame, c: Cpu) {
    && Look(c, R12) == f.ctx && Look(c, R13) == f.file && Look(c, R14) == f.entry.ramPtr
    && (forall r: Reg | r.RBX? || r.RSP? || r.RBP? || r.R15? :: Look(c, r) == Get(f.entry, r))
  }

  /** Only the homes of x1..x31 differ from the entry state. */
  ghost predicate MemFramed(f: Frame, mem: map<Slot, Word>) {
    && mem.Keys == f.entry.mem.Keys
    && (forall k | k in mem && (k.obj != f.file || k.disp == 0) :: mem[k] == f.entry.mem[k])
  }

  ghost predicate Framed(f: Frame, m: Machine) {
    && FrameOk(f) && m.cpu.ok
    && m.ramPtr == f.entry.ramPtr && m.stack == f.entry.stack
    && RegsFramed(f, m.cpu) && MemFramed(f, m.mem)
  }

  /** Every mapped guest register's value is in its host register. */
  ghost predicate InRegs(a: Alloc, m: Machine, g: G.State)
    requires Shape(a) && G.Valid(g)
  {
    forall i | 1 <= i < 32 && a.v[i].mapped && a.v[i].host.In? :: Get(m, a.v[i].host.r) == g.x[i]
  }

  /** Every clean guest register's value is in its home. */
  ghost predicate InHomes(a: Alloc, file: Word, mem: map<Slot, Word>, g: G.State)
    requires Shape(a) && G.Valid(g)
  {
    forall i | 1 <= i < 32 && !a.v[i].dirty :: HomeKey(file, i) in mem && mem[HomeKey(file, i)] == g.x[i]
  }

  ghost predicate Holds(a: Alloc, f: Frame, m: Machine, g: G.State) {
    && Coherent(a) && G.Valid(g) && Framed(f, m) && m.ram == g.ram
    && InRegs(a, m, g) && InHomes(a, f.file, m.mem, g)
  }

  predicate Reserved(r: Reg) {
    r.RBX? || r.RSP? || r.RBP? || r.R12? || r.R13? || r.R14? || r.R15?
  }

  lemma SetFramed(f: Frame, m: Machine, r: Reg, v: Word)
    requires Framed(f, m) && !Reserved(r)
    ensures Framed(f, Set(m, r, v))
  {
  }

  /** Two mapped guest registers never share a host register, and none has a reserved one. */
  lemma Distinct(a: Alloc, i: nat, j: nat)
    requires Coherent(a) && 1 <= i < 32 && 1 <= j < 32 && a.v[i].mapped && a.v[j].mapped
    ensures a.v[i].host.In? && a.v[j].host.In? && PoolIndex(a.v[i].host.r) < POOL
    ensures a.v[i].host == a.v[j].host <==> i == j
  {
    assert Placed(a, i) && Placed(a, j);
  }

  lemma TouchHolds(a: Alloc, r: nat, f: Frame, m: Machine, g: G.State)
    requires Holds(a, f, m, g) && 1 <= r < 32 && a.v[r].mapped
    ensures Holds(Touch(a, r), f, m, g)
  {
    TouchCoherent(a, r);
  }

  lemma FramedHome(f: Frame, m: Machine, r: nat)
    requires Framed(f, m) && r < 32
    ensures Get(m, R13) == f.file && HomeKey(f.file, r) in m.mem
  {
  }

  lemma StepLoad(f: Frame, m: Machine, d: Reg, r: nat)
    requires Framed(f, m) && r < 32
    ensures HomeKey(f.file, r) in m.mem
    ensures Step(Load(d, Home(r)), m) == Set(m, d, m.mem[HomeKey(f.file, r)])
  {
    hide Framed;
    FramedHome(f, m, r);
  }

  lemma StepStore(f: Frame, m: Machine, s: Reg, r: nat)
    requires Framed(f, m) && 1 <= r < 32
    ensures Step(Store(8, s, Home(r)), m) == m.(mem := m.mem[HomeKey(f.file, r) := Get(m, s)])
  {
    hide Framed;
    FramedHome(f, m, r);
  }

  lemma PutFramed(f: Frame, m: Machine, r: nat, v: Word)
    requires Framed(f, m) && 1 <= r < 32
    ensures Framed(f, m.(mem := m.mem[HomeKey(f.file, r) := v]))
  {
    var m' := m.(mem := m.mem[HomeKey(f.file, r) := v]);
    FramedHome(f, m, r);
    assert m'.mem.Keys == m.mem.Keys;
  }

  /** Giving the free host register `k` to `r` and loading it. */
  lemma LoadHolds(a: Alloc, r: nat, k: nat, a': Alloc, f: Frame, m: Machine, g: G.State)
    requires Holds(a, f, m, g) && 1 <= r < 32 && k < POOL && !a.v[r].mapped && !a.h[k].used
    requires Coherent(a') && (forall i | 0 <= i < 32 && i != r :: a'.v[i] == a.v[i])
    requires a'.v[r].mapped && !a'.v[r].dirty && a'.v[r].host == In(Pool(k))
    ensures Holds(a', f, Step(Load(Pool(k), Home(r)), m), g)
  {
    hide Framed, Step;
    StepLoad(f, m, Pool(k), r);
    assert m.mem[HomeKey(f.file, r)] == g.x[r];
    var m' := Set(m, Pool(k), g.x[r]);
    SetFramed(f, m, Pool(k), g.x[r]);
    forall i | 1 <= i < 32 && a'.v[i].mapped && a'.v[i].host.In?
      ensures Get(m', a'.v[i].host.r) == g.x[i]
    {
      Distinct(a', i, r);
    }
  }

  /** Evicting host register `k`. */
  lemma SpillHolds(a: Alloc, k: nat, f: Frame, m: Machine, g: G.State)
    requires Holds(a, f, m, g) && k < POOL && a.h[k].used
    ensures Owned(a, k) && Holds(Spill(a, k).a, f, Run(Spill(a, k).code, m), g)
  {
    hide Framed, Step, Run;
    SpillCoherent(a, k);
    var i := a.h[k].vreg;
    if a.v[i].dirty {
      var s := Store(8, Pool(k), Home(i));
      assert Spill(a, k).code == [s];
      Run1(s, m);
      StepStore(f, m, Pool(k), i);
      PutFramed(f, m, i, Get(m, Pool(k)));
    } else {
      RunNil(m);
    }
  }

  lemma AllocHolds(a: Alloc, r: nat, lock: Lock, f: Frame, m: Machine, g: G.State)
    requires Holds(a, f, m, g) && r < 32
    ensures var res := AllocReg(a, r, lock); Holds(res.a, f, Run(res.code, m), g)
  {
    hide Holds, Coherent, Run, Step, Straight, Allocated, Take, Claim, Spill, Touch, Pool;
    HoldsCoherent(a, f, m, g);
    if r == 0 {
      RunNil(m);
    } else if a.v[r].mapped {
      TouchHolds(a, r, f, m, g);
      RunNil(m);
    } else if FreeFrom(a.h, lock, 0) < POOL {
      var k := FreeFrom(a.h, lock, 0);
      TakeCoherent(a, r, k);
      UnmappedClean(a, r);
      LoadHolds(a, r, k, Take(a, r, k).a, f, m, g);
      Run1(Load(Pool(k), Home(r)), m);
    } else {
      VictimUsed(a.h, lock);
      EvictHolds(a, r, VictimFrom(a.h, lock, 0, POOL), f, m, g);
    }
  }

  lemma EvictHolds(a: Alloc, r: nat, k: nat, f: Frame, m: Machine, g: G.State)
    requires Holds(a, f, m, g) && 1 <= r < 32 && !a.v[r].mapped && k < POOL && a.h[k].used
    ensures a.h[k].vreg < 32
    ensures var s := Spill(a, k);
      var t := Claim(s.a, r, k);
      Holds(t.a, f, Run(s.code + t.code, m), g)
  {
    hide Holds, Coherent, Run, Step, Claim, Pool;
    HoldsCoherent(a, f, m, g);
    SpillCoherent(a, k);
    SpillHolds(a, k, f, m, g);
    var s := Spill(a, k);
    ClaimCoherent(s.a, r, k);
    UnmappedClean(s.a, r);
    var load := Load(Pool(k), Home(r));
    LoadHolds(s.a, r, k, Claim(s.a, r, k).a, f, Run(s.code, m), g);
    Run1(load, Run(s.code, m));
    RunStraight(s.code, [load], m);
  }

  lemma HoldsCoherent(a: Alloc, f: Frame, m: Machine, g: G.State)
    requires Holds(a, f, m, g)
    ensures Coherent(a) && Shape(a) && Framed(f, m) && G.Valid(g)
  {
  }

  lemma UnmappedClean(a: Alloc, r: nat)
    requires Coherent(a) && 1 <= r < 32 && !a.v[r].mapped
    ensures !a.v[r].dirty && !a.v[r].valid
  {
  }

  lemma RunNil(m: Machine)
    ensures Run([], m) == m
  {
  }

  lemma Run1(i: Inst, m: Machine)
    requires !i.Ret? && !i.Jbe8? && !i.Jmp8?
    ensures Run([i], m) == Step(i, m)
  {
    assert [i][1..] == [];
  }

  /** After operand allocation, RDI is free to stand for x0. */
  predicate RdiSpare(i: G.Inst, o: Alloc)
    requires |o.h| == POOL
  {
    var rdi := o.h[PoolIndex(RDI)];
    rdi.used ==>
      && rdi.vreg == i.rd
      && (G.IsImm(i.op) || (i.rd != i.rs1 && i.rd != i.rs2) || NeverBelowZero(i))
  }

  /** `sltu rd, rd, x0` is 0 whatever rd holds. */
  predicate NeverBelowZero(i: G.Inst) { i.op.SLTU? && i.rs2 == 0 && i.rs1 == i.rd }

  /** When the emitted code for an ALU instruction does what the interpreter does. */
  predicate Faithful(i: G.Inst, a: Alloc)
    requires Coherent(a) && G.Decoded(i)
  {
    i.rd == 0 || (ShortcutOk(i) && (UsesRdi(i) ==> RdiSpare(i, Operands(a, i).a)))
  }

  lemma OperandsHolds(a: Alloc, i: G.Inst, f: Frame, m: Machine, g: G.State)
    requires Holds(a, f, m, g) && G.Decoded(i) && i.rd != 0
    ensures var o := Operands(a, i); Holds(o.a, f, Run(o.code, m), g)
  {
    hide Holds, AllocReg, Run, Allocated, Coherent;
    HoldsCoherent(a, f, m, g);
    var d := AllocReg(a, i.rd, UNLOCKED);
    AllocHolds(a, i.rd, UNLOCKED, f, m, g);
    var m1 := Run(d.code, m);
    HoldsCoherent(d.a, f, m1, g);
    var dh := d.a.v[i.rd].host;
    var s1 := AllocReg(d.a, i.rs1, Lock(dh, NoHost));
    AllocHolds(d.a, i.rs1, Lock(dh, NoHost), f, m1, g);
    var m2 := Run(s1.code, m1);
    HoldsCoherent(s1.a, f, m2, g);
    RunStraight(d.code, s1.code, m);
    if !G.IsImm(i.op) {
      var lock := Lock(dh, s1.a.v[i.rs1].host);
      AllocHolds(s1.a, i.rs2, lock, f, m2, g);
      RunStraight(d.code + s1.code, AllocReg(s1.a, i.rs2, lock).code, m);
    }
  }

  lemma EffectFramed(f: Frame, c: Cpu, c': Cpu, d: Reg, v: Word, k: Option<Reg>)
    requires RegsFramed(f, c) && Effect(c, c', d, v, k) && PoolIndex(d) < POOL
    requires k.Some? ==> k.value == RDI
    ensures RegsFramed(f, c')
  {
  }

  lemma EffectInRegs(a: Alloc, r: nat, d: Reg, c': Cpu, v: Word, k: Option<Reg>, m: Machine, g: G.State)
    requires Coherent(a) && G.Valid(g) && InRegs(a, m, g)
    requires 1 <= r < 32 && a.v[r].mapped && a.v[r].host == In(d)
    requires Effect(m.cpu, c', d, v, k)
    requires k.Some? ==> k.value == RDI && (a.h[PoolIndex(RDI)].used ==> a.h[PoolIndex(RDI)].vreg == r)
    ensures InRegs(a, m.(cpu := c'), g.(x := g.x[r := v]))
  {
    forall i | 1 <= i < 32 && a.v[i].mapped && a.v[i].host.In?
      ensures Look(c', a.v[i].host.r) == g.x[r := v][i]
    {
      assert Placed(a, i);
      hide Coherent;
      Distinct(a, i, r);
      assert Look(m.cpu, a.v[i].host.r) == g.x[i];
    }
  }

  /** `r` gets a new value in its host register; its home is stale from here on. */
  lemma WriteHolds(a: Alloc, r: nat, d: Reg, c': Cpu, v: Word, k: Option<Reg>, f: Frame, m: Machine, g: G.State)
    requires Holds(a, f, m, g) && 1 <= r < 32 && a.v[r].mapped && a.v[r].host == In(d)
    requires Effect(m.cpu, c', d, v, k)
    requires k.Some? ==> k.value == RDI && (a.h[PoolIndex(RDI)].used ==> a.h[PoolIndex(RDI)].vreg == r)
    ensures Holds(MarkDirty(a, r), f, m.(cpu := c'), g.(x := g.x[r := v]))
  {
    hide MemFramed, Coherent, RegsFramed, Look, Keeps, PoolIndex;
    HoldsCoherent(a, f, m, g);
    MarkDirtyCoherent(a, r);
    assert Coherent(MarkDirty(a, r));
    Distinct(a, r, r);
    EffectFramed(f, m.cpu, c', d, v, k);
    EffectInRegs(a, r, d, c', v, k, m, g);
  }

  lemma PlacementHolds(i: G.Inst, o: Alloc)
    requires Coherent(o) && G.Decoded(i) && i.rd != 0 && o.v[i.rd].mapped
    requires i.rs1 != 0 ==> o.v[i.rs1].mapped
    requires !G.IsImm(i.op) && i.rs2 != 0 ==> o.v[i.rs2].mapped
    ensures o.v[i.rd].host == In(Seen(o.v[i.rd].host))
    ensures G.IsImm(i.op) || Placement(i, Seen(o.v[i.rd].host), Seen(o.v[i.rs1].host), Seen(o.v[i.rs2].host))
    ensures G.IsImm(i.op) ==>
      Placement(i, Seen(o.v[i.rd].host), Seen(o.v[i.rs1].host), Seen(o.v[i.rs1].host))
    ensures UsesRdi(i) && RdiSpare(i, o) && !RdiOk(i, Seen(o.v[i.rs1].host), Seen(o.v[i.rs2].host)) ==>
      NeverBelowZero(i) && Seen(o.v[i.rd].host) == Seen(o.v[i.rs1].host) == Seen(o.v[i.rs2].host) == RDI
  {
    Distinct(o, i.rd, i.rd);
    if i.rs1 != 0 { Distinct(o, i.rd, i.rs1); assert Placed(o, i.rs1); }
    if !G.IsImm(i.op) && i.rs2 != 0 { Distinct(o, i.rd, i.rs2); assert Placed(o, i.rs2); }
  }

  lemma TemplateIgnores(i: G.Inst, d: Reg, s1: Reg, s2: Reg)
    requires G.IsImm(i.op)
    ensures Template(i, d, s1, s2) == Template(i, d, s1, s1)
  {
    hide Body, G.IsImm, Shortcuts;
    BodyIgnores(i, d, s1, s2);
  }

  lemma BodyIgnores(i: G.Inst, d: Reg, s1: Reg, s2: Reg)
    requires G.IsImm(i.op)
    ensures Body(i, d, s1, s2) == Body(i, d, s1, s1)
  {
    hide G.IsImm, IsCompare, IsAddSub, IsBitwise, AluOf, ShiftOf, Narrow, Signed;
    hide ImmediateBody, AddSubBody, BitwiseBody, ShiftRegister, ZeroIf, Compare;
  }

  /** The registers hold the interpreter's operands. */
  lemma WantedHolds(i: G.Inst, o: Alloc, s1: Reg, s2: Reg, f: Frame, m: Machine, g: G.State)
    requires Holds(o, f, m, g) && G.Decoded(i) && !G.IsStore(i.op)
    requires i.rs1 != 0 ==> o.v[i.rs1].mapped && o.v[i.rs1].host == In(s1)
    requires !G.IsImm(i.op) && i.rs2 != 0 ==> o.v[i.rs2].mapped && o.v[i.rs2].host == In(s2)
    ensures G.Exec(g, i) == g.(x := g.x[i.rd := Wanted(i, m.cpu, s1, s2)])
  {
    hide G.Value, ImmWord, Coherent, Framed, InHomes;
  }

  lemma RunThenLocal(a: seq<Inst>, b: seq<Inst>, m: Machine, d: Reg, k: Option<Reg>)
    requires Straight(a) && AllWrite(b, d, k)
    ensures Run(a + b, m) == Run(a, m).(cpu := RunLocal(b, Run(a, m).cpu))
  {
    hide Run, RunLocal;
    RunStraight(a, b, m);
    assert forall x <- b :: Writes(x, d, k) ==> IsLocal(x);
    RunIsLocal(b, Run(a, m));
  }

  /** One ALU instruction, from any coherent state, for any aliasing and any spills. */
  lemma AluHolds(a: Alloc, i: G.Inst, f: Frame, m: Machine, g: G.State)
    requires Holds(a, f, m, g) && G.Decoded(i) && !G.IsStore(i.op) && i.rd != 0
    requires Faithful(i, a)
    ensures var r := EmitInst(a, i); Holds(r.a, f, Run(r.code, m), G.Exec(g, i))
  {
    hide Holds, Operands, Run, Coherent, Placement, Effect, Template, Wanted, G.Value, G.Exec, ShortcutOk, UsesRdi;
    hide RdiOk, AllWrite, Clobber;
    HoldsCoherent(a, f, m, g);
    var o := Operands(a, i);
    OperandsHolds(a, i, f, m, g);
    var m1 := Run(o.code, m);
    HoldsCoherent(o.a, f, m1, g);
    PlacementHolds(i, o.a);
    MappedIn(i, o.a);
    var d, s1, s2 := Seen(o.a.v[i.rd].host), Seen(o.a.v[i.rs1].host), Seen(o.a.v[i.rs2].host);
    var t2 := if G.IsImm(i.op) then s1 else s2;
    if UsesRdi(i) && !RdiOk(i, s1, s2) {
      BelowZeroEffect(i, m1.cpu);
    } else {
      if UsesRdi(i) && G.IsImm(i.op) { RdiOkImm(i, s1, s2); }
      TemplateEffect(i, d, s1, t2, m1.cpu);
    }
    if G.IsImm(i.op) { TemplateIgnores(i, d, s1, s2); }
    RunThenLocal(o.code, Template(i, d, s1, t2), m, d, Clobber(i));
    WantedHolds(i, o.a, s1, t2, f, m1, g);
    ClobberIs(i);
    WriteHolds(o.a, i.rd, d, RunLocal(Template(i, d, s1, t2), m1.cpu), Wanted(i, m1.cpu, s1, t2), Clobber(i), f, m1, g);
  }

  lemma ClobberIs(i: G.Inst)
    ensures Clobber(i).Some? <==> UsesRdi(i)
    ensures Clobber(i).Some? ==> Clobber(i).value == RDI
  {
  }

  lemma RdiOkImm(i: G.Inst, s1: Reg, s2: Reg)
    requires G.IsImm(i.op) && RdiOk(i, s1, s2)
    ensures RdiOk(i, s1, s1)
  {
  }

  lemma MappedIn(i: G.Inst, o: Alloc)
    requires Coherent(o) && G.Decoded(i)
    ensures i.rs1 != 0 && o.v[i.rs1].mapped ==> o.v[i.rs1].host == In(Seen(o.v[i.rs1].host))
    ensures i.rs2 != 0 && o.v[i.rs2].mapped ==> o.v[i.rs2].host == In(Seen(o.v[i.rs2].host))
  {
    if i.rs1 != 0 && o.v[i.rs1].mapped { assert Placed(o, i.rs1); }
    if i.rs2 != 0 && o.v[i.rs2].mapped { assert Placed(o, i.rs2); }
  }
}
