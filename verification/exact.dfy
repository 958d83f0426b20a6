/** The translation of an ALU instruction is right exactly when `Faithful` says so. */
module Exact {
  import opened Wrappers
  import opened Words
  import opened Host
  import opened Allocator
  import opened Emit
  import opened Templates
  import opened Meaning
  import G = Guest

  /** What the host registers hold when they agree with guest state `g` under allocation `a`. */
  function HostValue(a: Alloc, g: G.State, r: Reg): Word
    requires Shape(a) && G.Valid(g)
  {
    var k := PoolIndex(r);
    if r == R12 then ONE
    else if k < POOL && a.h[k].used && a.h[k].vreg < 32 then g.x[a.h[k].vreg]
    else ZERO
  }

  function Agreeing(a: Alloc, g: G.State): Machine
    requires Shape(a) && G.Valid(g)
  {
    Machine(
      Cpu(map r: Reg | true :: HostValue(a, g, r), Unknown, true),
      (map k | 0 <= k < 32 :: HomeKey(ZERO, k) := g.x[k])[Slot(ONE, CTX_MEMSIZE) := ZERO],
      g.ram, ZERO, [])
  }

  lemma AgreeingHomes(a: Alloc, g: G.State)
    requires Shape(a) && G.Valid(g)
    ensures forall i | 0 <= i < 32 ::
      HomeKey(ZERO, i) in Agreeing(a, g).mem && Agreeing(a, g).mem[HomeKey(ZERO, i)] == g.x[i]
    ensures Slot(ONE, CTX_MEMSIZE) in Agreeing(a, g).mem && ONE != ZERO
  {
    hide HostValue;
    assert ZERO.bits != ONE.bits;
    var m := Agreeing(a, g);
    forall i | 0 <= i < 32 ensures HomeKey(ZERO, i) in m.mem && m.mem[HomeKey(ZERO, i)] == g.x[i] {
    }
  }

  lemma AgreeingRegs(a: Alloc, g: G.State)
    requires Coherent(a) && G.Valid(g)
    ensures InRegs(a, Agreeing(a, g), g)
    ensures forall r :: Get(Agreeing(a, g), r) == HostValue(a, g, r)
  {
    var m := Agreeing(a, g);
    forall i | 1 <= i < 32 && a.v[i].mapped && a.v[i].host.In?
      ensures Get(m, a.v[i].host.r) == g.x[i]
    {
      assert Placed(a, i);
    }
  }

  /** The registers the frame uses are outside the pool. */
  lemma AgreeingAnchors(a: Alloc, g: G.State)
    requires Coherent(a) && G.Valid(g)
    ensures
      var m := Agreeing(a, g);
      Get(m, R12) == ONE && Get(m, R13) == ZERO && Get(m, R14) == ZERO && m.ramPtr == ZERO && m.ram == g.ram
  {
    AgreeingRegs(a, g);
    hide Coherent, InRegs, Get;
  }

  lemma AgreeingFramed(a: Alloc, g: G.State)
    requires Coherent(a) && G.Valid(g)
    ensures var m := Agreeing(a, g); Framed(Frame(ONE, ZERO, m), m) && m.ram == g.ram
  {
    AgreeingHomes(a, g);
    AgreeingAnchors(a, g);
    hide Coherent, InRegs, Agreeing, HostValue, Get;
  }

  lemma AgreeingHolds(a: Alloc, g: G.State)
    requires Coherent(a) && G.Valid(g)
    ensures Holds(a, Frame(ONE, ZERO, Agreeing(a, g)), Agreeing(a, g), g)
  {
    AgreeingHomes(a, g);
    AgreeingRegs(a, g);
    AgreeingFramed(a, g);
    hide InRegs, Agreeing, Framed, HostValue, Placed, Owned;
  }

  /** All guest registers hold `v`. */
  function Uniform(v: Word): G.State {
    G.State(seq(32, _ => v), map[])
  }

  /** Some agreeing machine and guest state part ways over this instruction. */
  ghost predicate Diverges(a: Alloc, i: G.Inst)
    requires Coherent(a) && G.Decoded(i)
  {
    exists f: Frame, m: Machine, g: G.State ::
      Holds(a, f, m, g) && !Holds(EmitInst(a, i).a, f, Run(EmitInst(a, i).code, m), G.Exec(g, i))
  }

  /** The template's run, after the operands have been brought in. */
  lemma AfterOperands(a: Alloc, i: G.Inst, f: Frame, m: Machine, g: G.State) returns (m1: Machine, d: Reg, s1: Reg, s2: Reg)
    requires Holds(a, f, m, g) && G.Decoded(i) && !G.IsStore(i.op) && i.rd != 0
    ensures var o := Operands(a, i).a;
      && Holds(o, f, m1, g)
      && o.v[i.rd].mapped && o.v[i.rd].host == In(d)
      && s1 == Seen(o.v[i.rs1].host) && s2 == Seen(o.v[i.rs2].host)
      && Run(EmitInst(a, i).code, m) == m1.(cpu := RunLocal(Template(i, d, s1, s2), m1.cpu))
      && EmitInst(a, i).a == MarkDirty(o, i.rd)
  {
    hide Holds, Operands, Run, RunLocal, Coherent, Template, AllWrite;
    HoldsCoherent(a, f, m, g);
    var o := Operands(a, i);
    OperandsHolds(a, i, f, m, g);
    m1 := Run(o.code, m);
    HoldsCoherent(o.a, f, m1, g);
    PlacementHolds(i, o.a);
    d, s1, s2 := Seen(o.a.v[i.rd].host), Seen(o.a.v[i.rs1].host), Seen(o.a.v[i.rs2].host);
    TemplateLocal(i, o.a, d, s1, s2);
    RunThenLocal(o.code, Template(i, d, s1, s2), m, d, Some(RDI));
  }

  lemma TemplateLocal(i: G.Inst, o: Alloc, d: Reg, s1: Reg, s2: Reg)
    requires Coherent(o) && G.Decoded(i) && !G.IsStore(i.op)
    requires s1 == Seen(o.v[i.rs1].host) && s2 == Seen(o.v[i.rs2].host)
    ensures AllWrite(Template(i, d, s1, s2), d, Some(RDI))
  {
    assert ZeroInRdi(i, s1, s2);
    hide Body, Coherent, AllWrite, ZeroInRdi, UsesRdi, Shortcuts, G.IsImm, IsCompare;
    BodyWrites(i, d, s1, s2);
    ClobberIs(i);
    Widen(Body(i, d, s1, s2), d, Clobber(i));
    MovesWrite(d, s1, i.imm);
    MovesWrite(d, s2, i.imm);
  }

  lemma MovesWrite(d: Reg, s: Reg, imm: int)
    ensures AllWrite([AluRR(Xor, true, d, d)], d, Some(RDI)) && AllWrite([MovRR(d, s)], d, Some(RDI))
    ensures AllWrite([MovImm32(d, imm)], d, Some(RDI))
  {
  }

  lemma Widen(code: seq<Inst>, d: Reg, k: Option<Reg>)
    requires AllWrite(code, d, k) && (k.Some? ==> k.value == RDI)
    ensures AllWrite(code, d, Some(RDI))
  {
    assert forall x <- code :: Writes(x, d, k) ==> Writes(x, d, Some(RDI));
  }

  /** A wrong value in rd's host register. */
  lemma WrongValue(a: Alloc, i: G.Inst, d: Reg, f: Frame, m: Machine, g: G.State)
    requires Coherent(a) && G.Valid(g) && G.Decoded(i) && !G.IsStore(i.op) && i.rd != 0
    requires a.v[i.rd].mapped && a.v[i.rd].host == In(d)
    requires Get(m, d) != G.Exec(g, i).x[i.rd]
    ensures !Holds(MarkDirty(a, i.rd), f, m, G.Exec(g, i))
  {
    hide G.Exec;
  }

  /** A source value the shortcut gets wrong. */
  function BadValue(i: G.Inst): Word {
    if ShortRight(i) || i.op.ADDW? then W(0x8000_0000) else ONE
  }

  lemma {:induction false} ShiftZero(n: bv64)
    ensures ShiftLeft(0, n) == 0 && ShiftRight(0, 0, n) == 0
    decreases n
  {
    if n != 0 { ShiftZero(n - 1); }
  }

  lemma ShiftsZero(n: Word)
    ensures Shl(ZERO, n) == ZERO && Shr(ZERO, n) == ZERO && Sar(ZERO, n) == ZERO
    ensures Sext32(Shl32(ZERO, n)) == ZERO && Sext32(Shr32(ZERO, n)) == ZERO && Sext32(Sar32(ZERO, n)) == ZERO
  {
    ShiftZero(n.bits);
  }

  /** Without a shortcut-safe operand pattern the moved value is not the interpreter's. */
  lemma ShortcutWrong(i: G.Inst)
    requires G.Decoded(i) && !G.IsStore(i.op) && !ShortcutOk(i)
    ensures Shortcuts(i.op) && (ShortLeft(i) || ShortRight(i))
    ensures ShortRight(i) ==> G.Value(i.op, BadValue(i), ZERO) != BadValue(i)
    ensures ShortLeft(i) && !G.IsImm(i.op) ==> i.rs2 != 0 && G.Value(i.op, ZERO, BadValue(i)) != BadValue(i)
    ensures ShortLeft(i) && G.IsImm(i.op) ==> i.imm != 0 && G.Value(i.op, ZERO, ImmWord(i.imm)) != ImmWord(i.imm)
  {
    if ShortRight(i) {
      RightWrong(i);
    } else {
      ImmSext(i.imm);
      LeftWrong(i);
    }
    hide G.Value, ImmWord, Sext32, Plus32;
  }

  lemma RightWrong(i: G.Inst)
    requires G.Decoded(i) && !G.IsStore(i.op) && !ShortcutOk(i) && ShortRight(i)
    ensures G.Value(i.op, W(0x8000_0000), ZERO) != W(0x8000_0000)
  {
    hide Sext32, Plus32, Minus32, Shl32, Shr32, Sar32, BitAnd;
    HighBit();
    BitwiseZero(W(31));
  }

  /** Bit 31 alone: the 32-bit operations with a zero operand keep it, sign extension does not. */
  lemma HighBit()
    ensures var x := W(0x8000_0000);
      && Plus32(x, ZERO) == x && Minus32(x, ZERO) == x
      && Shl32(x, ZERO) == x && Shr32(x, ZERO) == x && Sar32(x, ZERO) == x && Sext32(x) != x
  {
  }

  lemma LeftWrong(i: G.Inst)
    requires G.Decoded(i) && !G.IsStore(i.op) && !ShortcutOk(i) && ShortLeft(i)
    ensures !G.IsImm(i.op) ==> i.rs2 != 0 && G.Value(i.op, ZERO, BadValue(i)) != BadValue(i)
    ensures G.IsImm(i.op) ==> i.imm != 0 && G.Value(i.op, ZERO, ImmWord(i.imm)) == ZERO
  {
    hide ImmWord, Minus, Minus32, Plus32, Sext32, Shl, Shr, Sar, Shl32, Shr32, Sar32, BitAnd;
    FromZero();
    ShiftsZero(ImmWord(i.imm));
    ShiftsZero(BitAnd(ONE, W(63)));
    ShiftsZero(BitAnd(ONE, W(31)));
  }

  /** Where zero minus one, or a 32-bit sum, is not the second operand. */
  lemma FromZero()
    ensures Minus(ZERO, ONE) != ONE && Sext32(Minus32(ZERO, ONE)) != ONE
    ensures Sext32(Plus32(ZERO, W(0x8000_0000))) != W(0x8000_0000)
  {
  }

  lemma ShortcutDiverges(a: Alloc, i: G.Inst)
    requires Coherent(a) && G.Decoded(i) && !G.IsStore(i.op) && i.rd != 0 && !ShortcutOk(i)
    ensures Diverges(a, i)
  {
    hide Holds, Run, RunLocal, EmitInst, Operands, G.Value, Template, ImmWord, ShortcutOk;
    var g := Uniform(BadValue(i));
    var m := Agreeing(a, g);
    var f := Frame(ONE, ZERO, m);
    AgreeingHolds(a, g);
    var m1, d, s1, s2 := AfterOperands(a, i, f, m, g);
    var o := Operands(a, i).a;
    HoldsCoherent(o, f, m1, g);
    ShortcutWrong(i);
    MovedValue(i, d, s1, s2, m1.cpu);
    ShortSources(i, o, f, m1, g);
    WrongValue(o, i, d, f, m1.(cpu := RunLocal(Template(i, d, s1, s2), m1.cpu)), g);
  }

  lemma MovedValue(i: G.Inst, d: Reg, s1: Reg, s2: Reg, c: Cpu)
    requires ShortLeft(i) || ShortRight(i)
    requires ShortLeft(i) ==> if G.IsImm(i.op) then i.imm != 0 else i.rs2 != 0
    ensures Look(RunLocal(Template(i, d, s1, s2), c), d)
         == if ShortRight(i) then Look(c, s1) else if G.IsImm(i.op) then ImmWord(i.imm) else Look(c, s2)
  {
    hide RunLocal, ImmWord, Look, Body;
    MoveLeaves(d, s1, i.imm, c, None);
    MoveLeaves(d, s2, i.imm, c, None);
  }

  lemma ShortSources(i: G.Inst, o: Alloc, f: Frame, m: Machine, g: G.State)
    requires Holds(o, f, m, g) && G.Decoded(i) && g == Uniform(BadValue(i)) && !G.IsStore(i.op)
    requires i.rs1 != 0 ==> o.v[i.rs1].mapped
    requires !G.IsImm(i.op) && i.rs2 != 0 ==> o.v[i.rs2].mapped
    ensures i.rs1 != 0 ==> Get(m, Seen(o.v[i.rs1].host)) == BadValue(i)
    ensures !G.IsImm(i.op) && i.rs2 != 0 ==> Get(m, Seen(o.v[i.rs2].host)) == BadValue(i)
    ensures ShortRight(i) ==> G.Exec(g, i).x[i.rd] == G.Value(i.op, BadValue(i), ZERO)
    ensures ShortLeft(i) ==>
      G.Exec(g, i).x[i.rd]
      == G.Value(i.op, ZERO, if G.IsImm(i.op) then ImmWord(i.imm) else if i.rs2 == 0 then ZERO else BadValue(i))
  {
    hide G.Value, Framed, InHomes;
    if i.rs1 != 0 { Distinct(o, i.rs1, i.rs1); }
    if !G.IsImm(i.op) && i.rs2 != 0 { Distinct(o, i.rs2, i.rs2); }
  }

  /** The slot RDI belongs to once the operands are in. */
  function RdiSlot(a: Alloc, i: G.Inst): HReg
    requires Coherent(a) && G.Decoded(i) && i.rd != 0
  {
    hide Operands;
    Operands(a, i).a.h[PoolIndex(RDI)]
  }

  /** A guest register other than rd that lives in RDI loses its value to the comparison's zero. */
  lemma ClobberedDiverges(a: Alloc, i: G.Inst)
    requires Coherent(a) && G.Decoded(i) && i.rd != 0 && UsesRdi(i) && !G.IsStore(i.op)
    requires RdiSlot(a, i).used && RdiSlot(a, i).vreg != i.rd
    ensures Diverges(a, i)
  {
    hide Holds, Run, RunLocal, EmitInst, Operands, G.Value, Template, UsesRdi, Agreeing, ZeroIf;
    var g := Uniform(ONE);
    var m := Agreeing(a, g);
    var f := Frame(ONE, ZERO, m);
    AgreeingHolds(a, g);
    var m1, d, s1, s2 := AfterOperands(a, i, f, m, g);
    var o := Operands(a, i).a;
    HoldsCoherent(o, f, m1, g);
    assert Owned(o, PoolIndex(RDI));
    var v := o.h[PoolIndex(RDI)].vreg;
    Distinct(o, v, i.rd);
    assert ZeroInRdi(i, s1, s2);
    hide Coherent, ZeroInRdi;
    RdiZeroed(i, d, s1, s2, m1.cpu);
    var m2 := m1.(cpu := RunLocal(Template(i, d, s1, s2), m1.cpu));
    var g' := G.Exec(g, i);
    assert Get(m2, RDI) == ZERO != g'.x[v];
    LostValue(MarkDirty(o, i.rd), v, f, m2, g');
  }

  lemma LostValue(a: Alloc, v: nat, f: Frame, m: Machine, g: G.State)
    requires Shape(a) && G.Valid(g) && 1 <= v < 32 && a.v[v].mapped && a.v[v].host == In(RDI)
    requires Get(m, RDI) != g.x[v]
    ensures !Holds(a, f, m, g)
  {
  }

  lemma RdiZeroed(i: G.Inst, d: Reg, s1: Reg, s2: Reg, c: Cpu)
    requires UsesRdi(i) && ZeroInRdi(i, s1, s2) && d != RDI
    ensures Look(RunLocal(Template(i, d, s1, s2), c), RDI) == ZERO
  {
    hide RunLocal, ZeroIf, Compare, Look;
    var z1 := ZeroIf(i.rs1 == 0, s1);
    var setcc := if Signed(i.op) then Setl(d) else Setb(d);
    ZeroIfLeaves(i.rs1 == 0, s1, c);
    if G.IsImm(i.op) {
      var tail := [MovImm64(RCX, i.imm)] + Compare(s1, RCX, setcc, d);
      TailKeeps(i.imm, s1, RCX, setcc, d, RunLocal(z1, c));
      RunAppendLocal(z1, tail, c);
      assert CompareBody(i, d, s1, s2) == z1 + tail;
    } else {
      var z2 := ZeroIf(i.rs2 == 0, s2);
      ZeroIfLeaves(i.rs2 == 0, s2, RunLocal(z1, c));
      RunAppendLocal(z1, z2, c);
      TailKeeps(i.imm, s1, s2, setcc, d, RunLocal(z1 + z2, c));
      RunAppendLocal(z1 + z2, Compare(s1, s2, setcc, d), c);
    }
  }

  lemma TailKeeps(imm: int, l: Reg, r: Reg, setcc: Inst, d: Reg, c: Cpu)
    requires (setcc == Setl(d) || setcc == Setb(d)) && d != RDI
    ensures Look(RunLocal(Compare(l, r, setcc, d), c), RDI) == Look(c, RDI)
    ensures Look(RunLocal([MovImm64(RCX, imm)] + Compare(l, r, setcc, d), c), RDI) == Look(c, RDI)
  {
    hide RunLocal;
    RunKeeps(Compare(l, r, setcc, d), c, d, None);
    RunKeeps([MovImm64(RCX, imm)] + Compare(l, r, setcc, d), c, d, None);
  }

  /** RDI holds both rd and the other operand: the operand is zeroed before it is compared. */
  lemma SelfDiverges(a: Alloc, i: G.Inst)
    requires Coherent(a) && G.Decoded(i) && i.rd != 0 && UsesRdi(i) && !G.IsImm(i.op)
    requires (i.rd == i.rs1 || i.rd == i.rs2) && !NeverBelowZero(i)
    requires RdiSlot(a, i).used && RdiSlot(a, i).vreg == i.rd
    ensures Diverges(a, i)
  {
    hide Holds, Run, RunLocal, EmitInst, Operands, G.Value, Template, Compare;
    var minus := W(0xFFFF_FFFF_FFFF_FFFF);
    var g := Uniform(if i.rs1 == 0 then ONE else minus);
    var m := Agreeing(a, g);
    var f := Frame(ONE, ZERO, m);
    AgreeingHolds(a, g);
    var m1, d, s1, s2 := AfterOperands(a, i, f, m, g);
    var o := Operands(a, i).a;
    HoldsCoherent(o, f, m1, g);
    assert Owned(o, PoolIndex(RDI));
    assert d == RDI && s1 == RDI && s2 == RDI;
    SelfCompareLeaves(i, if Signed(i.op) then Setl(RDI) else Setb(RDI), m1.cpu);
    SelfTemplate(i);
    SelfValue(i, g);
    WrongValue(o, i, d, f, m1.(cpu := RunLocal(Template(i, d, s1, s2), m1.cpu)), g);
  }

  lemma SelfTemplate(i: G.Inst)
    requires IsCompare(i.op) && !G.IsImm(i.op)
    ensures Template(i, RDI, RDI, RDI)
         == ZeroIf(i.rs1 == 0, RDI) + ZeroIf(i.rs2 == 0, RDI)
          + Compare(RDI, RDI, if Signed(i.op) then Setl(RDI) else Setb(RDI), RDI)
  {
  }

  lemma SelfValue(i: G.Inst, g: G.State)
    requires G.Decoded(i) && i.rd != 0 && UsesRdi(i) && !G.IsImm(i.op)
    requires (i.rd == i.rs1 || i.rd == i.rs2) && !NeverBelowZero(i)
    requires g == Uniform(if i.rs1 == 0 then ONE else W(0xFFFF_FFFF_FFFF_FFFF))
    ensures G.Exec(g, i).x[i.rd] == ONE
  {
    hide Below, SignedLess;
    Comparisons();
  }

  lemma Comparisons()
    ensures Below(ZERO, ONE) && SignedLess(ZERO, ONE) && SignedLess(W(0xFFFF_FFFF_FFFF_FFFF), ZERO)
  {
  }

  /**
   * From a coherent allocator state, the code emitted for an ALU instruction does what the
   * interpreter does, on every agreeing machine, if and only if the instruction is `Faithful`.
   */
  lemma FaithfulExactly(a: Alloc, i: G.Inst)
    requires Coherent(a) && G.Decoded(i) && !G.IsStore(i.op)
    ensures Faithful(i, a) <==> !Diverges(a, i)
  {
    hide Run, EmitInst, G.Exec, Faithful, Framed, InRegs, InHomes, Coherent;
    if !Faithful(i, a) {
      UnfaithfulDiverges(a, i);
    } else {
      forall f: Frame, m: Machine, g: G.State | Holds(a, f, m, g)
        ensures Holds(EmitInst(a, i).a, f, Run(EmitInst(a, i).code, m), G.Exec(g, i))
      {
        FaithfulHolds(a, i, f, m, g);
      }
    }
  }

  lemma UnfaithfulDiverges(a: Alloc, i: G.Inst)
    requires Coherent(a) && G.Decoded(i) && !G.IsStore(i.op) && !Faithful(i, a)
    ensures Diverges(a, i)
  {
    hide Diverges, ShortcutOk, UsesRdi, Operands, Coherent;
    if !ShortcutOk(i) {
      ShortcutDiverges(a, i);
    } else if RdiSlot(a, i).vreg != i.rd {
      ClobberedDiverges(a, i);
    } else {
      SelfDiverges(a, i);
    }
  }

  lemma FaithfulHolds(a: Alloc, i: G.Inst, f: Frame, m: Machine, g: G.State)
    requires Holds(a, f, m, g) && G.Decoded(i) && !G.IsStore(i.op) && Faithful(i, a)
    ensures Holds(EmitInst(a, i).a, f, Run(EmitInst(a, i).code, m), G.Exec(g, i))
  {
    if i.rd != 0 {
      AluHolds(a, i, f, m, g);
    } else {
      hide G.Value, Operands, Framed, Coherent;
      RunNil(m);
      var g' := G.Exec(g, i);
      assert forall k | 1 <= k < 32 :: g'.x[k] == g.x[k];
    }
  }
}
