/** Instruction templates: the host code emitted for one ALU instruction, given the registers allocated for its
    operands, leaves the interpreter's value in the destination and every other register that matters alone,
    under the conditions each shortcut of the emitters needs. */
module Templates {
  import opened Wrappers
  import opened Words
  import opened Host
  import opened Allocator
  import opened Emit
  import G = Guest

  /** Besides `d`, RCX, the flags and perhaps one clobbered register nothing changes. */
  ghost predicate Keeps(c: Cpu, c': Cpu, d: Reg, clobber: Option<Reg>) {
    forall r | r != d && r != RCX && clobber != Some(r) :: Look(c', r) == Look(c, r)
  }

  ghost predicate Effect(c: Cpu, c': Cpu, d: Reg, v: Word, clobber: Option<Reg>) {
    Keeps(c, c', d, clobber) && Look(c', d) == v && c'.ok == c.ok
  }

  function RunLocal(code: seq<Inst>, c: Cpu): Cpu {
    if code == [] then c else RunLocal(code[1..], StepLocal(code[0], c))
  }

  lemma {:induction false} RunIsLocal(code: seq<Inst>, m: Machine)
    requires forall i <- code :: IsLocal(i)
    ensures Run(code, m) == m.(cpu := RunLocal(code, m.cpu))
    decreases |code|
  {
    hide StepLocal;
    if code != [] {
      RunIsLocal(code[1..], Step(code[0], m));
    }
  }

  /** A local instruction writing `d`, RCX or the clobbered register. */
  predicate Writes(i: Inst, d: Reg, clobber: Option<Reg>) {
    IsLocal(i) && (!i.Cmp? ==> i.d == d || i.d == RCX || clobber == Some(i.d))
  }

  lemma {:induction false} RunKeeps(code: seq<Inst>, c: Cpu, d: Reg, clobber: Option<Reg>)
    requires forall i <- code :: Writes(i, d, clobber)
    ensures Keeps(c, RunLocal(code, c), d, clobber)
  {
    if code != [] {
      StepKeeps(code[0], c, d, clobber);
      RunKeeps(code[1..], StepLocal(code[0], c), d, clobber);
    }
  }

  lemma StepKeeps(i: Inst, c: Cpu, d: Reg, clobber: Option<Reg>)
    requires Writes(i, d, clobber)
    ensures Keeps(c, StepLocal(i, c), d, clobber)
  {
    hide AluValue, ShiftValue, ImmWord, Sext32, LowByte, SetByte, SignedLess, Below, BitAnd;
  }

  lemma {:induction false} RunAppendLocal(a: seq<Inst>, b: seq<Inst>, c: Cpu)
    ensures RunLocal(a + b, c) == RunLocal(b, RunLocal(a, c))
    decreases |a|
  {
    hide StepLocal;
    if a == [] {
      assert a + b == b;
    } else {
      assert (a + b)[1..] == a[1..] + b;
      RunAppendLocal(a[1..], b, StepLocal(a[0], c));
    }
  }

  lemma Run1Local(i: Inst, c: Cpu)
    ensures RunLocal([i], c) == StepLocal(i, c)
  {
    hide StepLocal;
    assert [i][1..] == [];
  }

  lemma Run2Local(i: Inst, j: Inst, c: Cpu)
    ensures RunLocal([i, j], c) == StepLocal(j, StepLocal(i, c))
  {
    hide StepLocal;
    assert [i, j][1..] == [j];
    Run1Local(j, StepLocal(i, c));
  }

  lemma Run3Local(i: Inst, j: Inst, k: Inst, c: Cpu)
    ensures RunLocal([i, j, k], c) == StepLocal(k, StepLocal(j, StepLocal(i, c)))
  {
    hide StepLocal;
    assert [i, j, k][1..] == [j, k];
    Run2Local(j, k, StepLocal(i, c));
  }

  /** Operand registers as allocation leaves them; RCX is never handed out. */
  ghost predicate Placement(i: G.Inst, d: Reg, s1: Reg, s2: Reg) {
    && d != RCX && s1 != RCX && s2 != RCX && i.rd != 0
    && (i.rs1 != 0 ==> (s1 == d <==> i.rs1 == i.rd))
    && (!G.IsImm(i.op) && i.rs2 != 0 ==> (s2 == d <==> i.rs2 == i.rd))
  }

  /** The value the interpreter assigns, from the source registers' contents. */
  function Wanted(i: G.Inst, c: Cpu, s1: Reg, s2: Reg): Word {
    G.Value(i.op, Src(i.rs1, c, s1), if G.IsImm(i.op) then ImmWord(i.imm) else Src(i.rs2, c, s2))
  }

  function Src(r: nat, c: Cpu, s: Reg): Word {
    if r == 0 then ZERO else Look(c, s)
  }

  /** What a code fragment leaves in `d`. */
  ghost predicate Leaves(code: seq<Inst>, c: Cpu, d: Reg, v: Word) {
    Look(RunLocal(code, c), d) == v && RunLocal(code, c).ok == c.ok
  }

  lemma ThenSext(code: seq<Inst>, c: Cpu, d: Reg, v: Word)
    requires Leaves(code, c, d, v)
    ensures Leaves(code + [Movsxd(d, d)], c, d, Sext32(v))
  {
    hide RunLocal, Sext32;
    RunAppendLocal(code, [Movsxd(d, d)], c);
    Run1Local(Movsxd(d, d), RunLocal(code, c));
  }

  lemma AluLeaves(op: Alu, wide: bool, d: Reg, s1: Reg, s2: Reg, c: Cpu)
    ensures Leaves([AluRR(op, wide, d, s2)], c, d, AluValue(op, wide, Look(c, d), Look(c, s2)))
    ensures s2 != d ==>
      Leaves([MovRR(d, s1), AluRR(op, wide, d, s2)], c, d, AluValue(op, wide, Look(c, s1), Look(c, s2)))
    ensures d != RCX && s1 != RCX ==>
      Leaves([MovRR(RCX, s2), MovRR(d, s1), AluRR(op, wide, d, RCX)], c, d,
             AluValue(op, wide, Look(c, s1), Look(c, s2)))
  {
    hide RunLocal, AluValue;
    Run1Local(AluRR(op, wide, d, s2), c);
    Run2Local(MovRR(d, s1), AluRR(op, wide, d, s2), c);
    Run3Local(MovRR(RCX, s2), MovRR(d, s1), AluRR(op, wide, d, RCX), c);
  }

  lemma AddSubLeaves(i: G.Inst, d: Reg, s1: Reg, s2: Reg, c: Cpu)
    requires IsAddSub(i.op) && Placement(i, d, s1, s2) && i.rs1 != 0 && i.rs2 != 0
    ensures Leaves(AddSubBody(i, d, s1, s2), c, d, Wanted(i, c, s1, s2))
  {
    hide Leaves, Look, Plus, Plus32, Minus, Minus32, Sext32;
    var op, wide := AluOf(i.op), !Narrow(i.op);
    AluLeaves(op, wide, d, s1, s2, c);
    AluLeaves(op, wide, d, s2, s1, c);
    PlusCommutes(Look(c, s1), Look(c, s2));
    var code := if op == Add then Addition(i, wide, d, s1, s2) else Subtraction(i, wide, d, s1, s2);
    assert code + [] == code;
    if !wide {
      ThenSext(code, c, d, AluValue(op, false, Look(c, s1), Look(c, s2)));
    }
  }

  lemma PlusCommutes(a: Word, b: Word)
    ensures Plus(a, b) == Plus(b, a) && Plus32(a, b) == Plus32(b, a)
  {
    hide Sum, Sum32, LowHalf;
    SumCommutes(a.bits, b.bits);
    Sum32Commutes(LowHalf(a.bits), LowHalf(b.bits));
  }

  lemma Sum32Commutes(x: bv32, y: bv32)
    ensures Sum32(x, y) == Sum32(y, x)
  {
  }

  lemma SumCommutes(x: bv64, y: bv64)
    ensures Sum(x, y) == Sum(y, x)
  {
  }

  lemma CopyLeaves(same: bool, d: Reg, s: Reg, c: Cpu)
    requires same ==> s == d
    ensures var c' := RunLocal(Copy(same, d, s), c);
      Look(c', d) == Look(c, s) && c'.ok == c.ok && (forall r | r != d :: Look(c', r) == Look(c, r))
  {
    if !same { Run1Local(MovRR(d, s), c); }
  }

  lemma SettleLeaves(i: G.Inst, d: Reg, s1: Reg, s2: Reg, c: Cpu)
    requires Placement(i, d, s1, s2) && !G.IsImm(i.op) && i.rs1 != 0 && i.rs2 != 0
    ensures var c' := RunLocal(Settle(i, d, s1, s2), c);
      Look(c', d) == Look(c, s1) && Look(c', Second(i, s2)) == Look(c, s2) && c'.ok == c.ok
    ensures Second(i, s2) != d
  {
    hide RunLocal, Copy;
    if i.rd == i.rs2 {
      var move := MovRR(RCX, s2);
      Run1Local(move, c);
      CopyLeaves(i.rd == i.rs1, d, s1, StepLocal(move, c));
      RunAppendLocal([move], Copy(i.rd == i.rs1, d, s1), c);
    } else {
      CopyLeaves(i.rd == i.rs1, d, s1, c);
    }
  }

  lemma BitwiseLeaves(i: G.Inst, op: Alu, d: Reg, s1: Reg, s2: Reg, c: Cpu)
    requires Placement(i, d, s1, s2) && !G.IsImm(i.op) && i.rs1 != 0 && i.rs2 != 0
    ensures Leaves(Bitwise(i, op, d, s1, s2), c, d, AluValue(op, true, Look(c, s1), Look(c, s2)))
  {
    hide RunLocal, AluValue, Settle;
    SettleLeaves(i, d, s1, s2, c);
    var last := AluRR(op, true, d, Second(i, s2));
    RunAppendLocal(Settle(i, d, s1, s2), [last], c);
    Run1Local(last, RunLocal(Settle(i, d, s1, s2), c));
  }

  lemma BitwiseZero(a: Word)
    ensures BitXor(a, a) == ZERO && BitAnd(a, ZERO) == ZERO && BitAnd(ZERO, a) == ZERO
  {
  }

  lemma ShiftByLeaves(sh: Shift, wide: bool, d: Reg, s: Reg, c: Cpu)
    requires d != RCX && s != d
    ensures var v := ShiftValue(sh, wide, Look(c, d), BitAnd(Look(c, s), if wide then W(63) else W(31)));
      Leaves(ShiftBy(sh, wide, d, s), c, d, if wide then v else Sext32(v))
  {
    hide RunLocal, ShiftValue, BitAnd, Sext32;
    var shift := [MovRR(RCX, s), ShiftCl(sh, wide, d)];
    Run2Local(MovRR(RCX, s), ShiftCl(sh, wide, d), c);
    if wide {
      assert ShiftBy(sh, wide, d, s) == shift;
    } else {
      ThenSext(shift, c, d, ShiftValue(sh, false, Look(c, d), BitAnd(Look(c, s), W(31))));
    }
  }

  lemma ShiftLeaves(i: G.Inst, sh: Shift, wide: bool, d: Reg, s1: Reg, s2: Reg, c: Cpu)
    requires Placement(i, d, s1, s2) && !G.IsImm(i.op) && i.rs1 != 0 && i.rs2 != 0
    ensures var v := ShiftValue(sh, wide, Look(c, s1), BitAnd(Look(c, s2), if wide then W(63) else W(31)));
      Leaves(ShiftRegister(i, sh, wide, d, s1, s2), c, d, if wide then v else Sext32(v))
  {
    hide RunLocal, ShiftValue, BitAnd, Settle, Sext32, ShiftBy, Look;
    SettleLeaves(i, d, s1, s2, c);
    var pre, s := Settle(i, d, s1, s2), Second(i, s2);
    RunAppendLocal(pre, ShiftBy(sh, wide, d, s), c);
    ShiftByLeaves(sh, wide, d, s, RunLocal(pre, c));
  }

  lemma ImmediateLeaves(i: G.Inst, d: Reg, s1: Reg, last: Inst, c: Cpu)
    requires d != RCX && (i.rd == i.rs1 ==> s1 == d)
    ensures last.AluImm? && last.d == d ==>
      Leaves(Immediate(i, d, s1, last), c, d, AluValue(last.op, last.wide, Look(c, s1), ImmWord(last.imm)))
    ensures last.ShiftImm? && last.d == d ==>
      Leaves(Immediate(i, d, s1, last), c, d,
             ShiftValue(last.sh, last.wide, Look(c, s1), ImmWord(if last.wide then last.n % 64 else last.n % 32)))
  {
    hide RunLocal, AluValue, ShiftValue, ImmWord, Copy;
    CopyLeaves(i.rd == i.rs1, d, s1, c);
    RunAppendLocal(Copy(i.rd == i.rs1, d, s1), [last], c);
    Run1Local(last, RunLocal(Copy(i.rd == i.rs1, d, s1), c));
  }

  lemma CompareLeaves(l: Reg, r: Reg, setcc: Inst, d: Reg, c: Cpu)
    requires setcc == Setl(d) || setcc == Setb(d)
    ensures Leaves(Compare(l, r, setcc, d), c, d,
                   Truth(if setcc.Setl? then SignedLess(Look(c, l), Look(c, r)) else Below(Look(c, l), Look(c, r))))
  {
    hide RunLocal, SignedLess, Below, Truth, SetByte, LowByte;
    Run3Local(Cmp(l, r), setcc, Movzx8(d, d), c);
    ByteResult(Look(c, d), if setcc.Setl? then SignedLess(Look(c, l), Look(c, r)) else Below(Look(c, l), Look(c, r)));
  }

  lemma ByteResult(old_: Word, c: bool)
    ensures LowByte(SetByte(old_, c)) == Truth(c)
  {
  }

  /** A comparison reads x0 as RDI and zeroes it first. */
  predicate UsesRdi(i: G.Inst) {
    IsCompare(i.op) && (i.rs1 == 0 || (!G.IsImm(i.op) && i.rs2 == 0))
  }

  predicate ZeroInRdi(i: G.Inst, s1: Reg, s2: Reg) {
    (i.rs1 == 0 ==> s1 == RDI) && (!G.IsImm(i.op) && i.rs2 == 0 ==> s2 == RDI)
  }

  /** RDI can stand for x0: no other operand lives there. */
  ghost predicate RdiOk(i: G.Inst, s1: Reg, s2: Reg) {
    && ZeroInRdi(i, s1, s2)
    && (!G.IsImm(i.op) && i.rs1 == 0 && i.rs2 != 0 ==> s2 != RDI)
    && (!G.IsImm(i.op) && i.rs2 == 0 && i.rs1 != 0 ==> s1 != RDI)
  }

  lemma ZeroIfLeaves(z: bool, r: Reg, c: Cpu)
    ensures var c' := RunLocal(ZeroIf(z, r), c);
      Look(c', r) == (if z then ZERO else Look(c, r)) && c'.ok == c.ok
      && (forall x | x != r :: Look(c', x) == Look(c, x))
  {
    hide BitXor;
    if z {
      Run1Local(AluRR(Xor, true, r, r), c);
      BitwiseZero(Look(c, r));
    }
  }

  lemma ZeroBothLeaves(i: G.Inst, s1: Reg, s2: Reg, c: Cpu)
    requires RdiOk(i, s1, s2) && !G.IsImm(i.op)
    ensures var c' := RunLocal(ZeroIf(i.rs1 == 0, s1) + ZeroIf(i.rs2 == 0, s2), c);
      Look(c', s1) == Src(i.rs1, c, s1) && Look(c', s2) == Src(i.rs2, c, s2) && c'.ok == c.ok
  {
    hide RunLocal, ZeroIf, Look;
    ZeroIfLeaves(i.rs1 == 0, s1, c);
    ZeroIfLeaves(i.rs2 == 0, s2, RunLocal(ZeroIf(i.rs1 == 0, s1), c));
    RunAppendLocal(ZeroIf(i.rs1 == 0, s1), ZeroIf(i.rs2 == 0, s2), c);
  }

  lemma ZeroThenImm(i: G.Inst, s1: Reg, c: Cpu)
    requires s1 != RCX
    ensures var c' := RunLocal(ZeroIf(i.rs1 == 0, s1) + [MovImm64(RCX, i.imm)], c);
      Look(c', s1) == Src(i.rs1, c, s1) && Look(c', RCX) == ImmWord(i.imm) && c'.ok == c.ok
  {
    hide RunLocal, ZeroIf, ImmWord;
    var z := ZeroIf(i.rs1 == 0, s1);
    ZeroIfLeaves(i.rs1 == 0, s1, c);
    RunAppendLocal(z, [MovImm64(RCX, i.imm)], c);
    Run1Local(MovImm64(RCX, i.imm), RunLocal(z, c));
  }

  lemma ComparisonLeaves(i: G.Inst, d: Reg, s1: Reg, s2: Reg, c: Cpu)
    requires IsCompare(i.op) && Placement(i, d, s1, s2) && RdiOk(i, s1, s2)
    ensures Leaves(CompareBody(i, d, s1, s2), c, d, Wanted(i, c, s1, s2))
  {
    hide RunLocal, ZeroIf, Compare, ImmWord, SignedLess, Below, Truth, Look;
    var setcc := if Signed(i.op) then Setl(d) else Setb(d);
    if G.IsImm(i.op) {
      var pre := ZeroIf(i.rs1 == 0, s1) + [MovImm64(RCX, i.imm)];
      ZeroThenImm(i, s1, c);
      CompareLeaves(s1, RCX, setcc, d, RunLocal(pre, c));
      RunAppendLocal(pre, Compare(s1, RCX, setcc, d), c);
    } else {
      var pre := ZeroIf(i.rs1 == 0, s1) + ZeroIf(i.rs2 == 0, s2);
      ZeroBothLeaves(i, s1, s2, c);
      CompareLeaves(s1, s2, setcc, d, RunLocal(pre, c));
      RunAppendLocal(pre, Compare(s1, s2, setcc, d), c);
    }
  }

  /** The families the shared shortcuts handle correctly for x0 sources and zero immediates. */
  predicate ShortcutOk(i: G.Inst) {
    match i.op
    case ADDW => i.rs1 == 0 <==> i.rs2 == 0
    case SUB => i.rs1 == 0 ==> i.rs2 == 0
    case SUBW => i.rs1 == 0 <==> i.rs2 == 0
    case SLL => i.rs1 == 0 ==> i.rs2 == 0
    case SRL => i.rs1 == 0 ==> i.rs2 == 0
    case SRA => i.rs1 == 0 ==> i.rs2 == 0
    case SLLW => i.rs1 == 0 <==> i.rs2 == 0
    case SRLW => i.rs1 == 0 <==> i.rs2 == 0
    case SRAW => i.rs1 == 0 <==> i.rs2 == 0
    case ADDIW => i.imm == 0 ==> i.rs1 == 0
    case SLLI => i.rs1 == 0 ==> i.imm == 0
    case SRLI => i.rs1 == 0 ==> i.imm == 0
    case SRAI => i.rs1 == 0 ==> i.imm == 0
    case SLLIW => i.rs1 == 0 <==> i.imm == 0
    case SRLIW => i.rs1 == 0 <==> i.imm == 0
    case SRAIW => i.rs1 == 0 <==> i.imm == 0
    case _ => true
  }

  /** The shortcut taken for this instruction, if any. */
  predicate ShortLeft(i: G.Inst) { Shortcuts(i.op) && i.rs1 == 0 }

  predicate ShortRight(i: G.Inst) {
    Shortcuts(i.op) && i.rs1 != 0 && (if G.IsImm(i.op) then i.imm == 0 else i.rs2 == 0)
  }

  lemma PlusZero(a: Word)
    ensures Plus(a, ZERO) == a
  {
  }

  lemma MinusZero(a: Word)
    ensures Minus(a, ZERO) == a
  {
  }

  lemma XorZero(a: Word)
    ensures BitXor(a, ZERO) == a
  {
  }

  lemma OrZero(a: Word)
    ensures BitOr(a, ZERO) == a
  {
  }

  lemma ShiftNone(a: Word)
    ensures Shl(a, ZERO) == a && Shr(a, ZERO) == a && Sar(a, ZERO) == a
  {
  }

  /** A zero second operand leaves the first as it is, where the shortcut assumes so. */
  lemma RightZero(op: G.Op, a: Word)
    requires Shortcuts(op) && !G.IsStore(op)
    requires !(op.ADDW? || op.SUBW? || op.SLLW? || op.SRLW? || op.SRAW?)
    requires !(op.ADDIW? || op.SLLIW? || op.SRLIW? || op.SRAIW?)
    ensures G.Value(op, a, ZERO) == a
  {
    hide Plus, Minus, BitXor, BitOr, BitAnd, Shl, Shr, Sar;
    PlusZero(a);
    MinusZero(a);
    XorZero(a);
    OrZero(a);
    ShiftNone(a);
    BitwiseZero(W(63));
  }

  lemma BothZero(op: G.Op)
    requires Shortcuts(op) && !G.IsStore(op)
    ensures G.Value(op, ZERO, ZERO) == ZERO
  {
  }

  lemma LeftZero(op: G.Op, b: Word)
    requires op.ADD? || op.XOR? || op.OR? || op.ADDI? || op.XORI? || op.ORI?
    ensures G.Value(op, ZERO, b) == b
  {
  }

  /** A decoded immediate is the sign extension of its low half. */
  lemma ImmSext(imm: int)
    requires -2048 <= imm < 2048
    ensures Sext32(Plus32(ZERO, ImmWord(imm))) == ImmWord(imm)
    ensures ImmWord(imm) == ZERO <==> imm == 0
  {
    hide Sext32, Plus32;
    Small(if imm >= 0 then imm else -imm);
    SextSmall(ImmWord(if imm >= 0 then imm else -imm));
  }

  lemma SextSmall(a: Word)
    requires a.bits < 4096
    ensures Sext32(Plus32(ZERO, a)) == a
    ensures Sext32(Plus32(ZERO, W(0 - a.bits))) == W(0 - a.bits)
    ensures W(0 - a.bits) == ZERO ==> a == ZERO
  {
  }

  lemma BodyLeaves(i: G.Inst, d: Reg, s1: Reg, s2: Reg, c: Cpu)
    requires G.Decoded(i) && !G.IsStore(i.op) && Placement(i, d, s1, s2) && !ShortLeft(i) && !ShortRight(i)
    requires UsesRdi(i) ==> RdiOk(i, s1, s2)
    ensures Leaves(Body(i, d, s1, s2), c, d, Wanted(i, c, s1, s2))
  {
    hide Leaves, Wanted, CompareBody, ImmediateBody, AddSubBody, BitwiseBody, ShiftRegister;
    if IsCompare(i.op) {
      ComparisonLeaves(i, d, s1, s2, c);
    } else if G.IsImm(i.op) {
      ImmediateBodyLeaves(i, d, s1, s2, c);
    } else if IsAddSub(i.op) {
      AddSubLeaves(i, d, s1, s2, c);
    } else if IsBitwise(i.op) {
      BitwiseBodyLeaves(i, d, s1, s2, c);
    } else {
      ShiftBodyLeaves(i, d, s1, s2, c);
    }
  }

  lemma BitwiseBodyLeaves(i: G.Inst, d: Reg, s1: Reg, s2: Reg, c: Cpu)
    requires IsBitwise(i.op) && Placement(i, d, s1, s2) && (i.op.AND? || (i.rs1 != 0 && i.rs2 != 0))
    ensures Leaves(BitwiseBody(i, d, s1, s2), c, d, Wanted(i, c, s1, s2))
  {
    hide Leaves, Look, Bitwise, BitXor, BitOr, BitAnd;
    if i.op.AND? && (i.rs1 == 0 || i.rs2 == 0) {
      AluLeaves(Xor, true, d, s1, d, c);
      BitwiseZero(Look(c, d));
      BitwiseZero(Src(i.rs1, c, s1));
      BitwiseZero(Src(i.rs2, c, s2));
    } else {
      BitwiseLeaves(i, AluOf(i.op), d, s1, s2, c);
    }
  }

  lemma ShiftBodyLeaves(i: G.Inst, d: Reg, s1: Reg, s2: Reg, c: Cpu)
    requires Placement(i, d, s1, s2) && !G.IsImm(i.op) && i.rs1 != 0 && i.rs2 != 0
    requires !IsCompare(i.op) && !G.IsImm(i.op) && !IsAddSub(i.op) && !IsBitwise(i.op) && !G.IsStore(i.op)
    ensures Leaves(ShiftRegister(i, ShiftOf(i.op), !Narrow(i.op), d, s1, s2), c, d, Wanted(i, c, s1, s2))
  {
    hide Leaves, Look, ShiftRegister, BitAnd, Shl, Shr, Sar, Shl32, Shr32, Sar32, Sext32;
    ShiftLeaves(i, ShiftOf(i.op), !Narrow(i.op), d, s1, s2, c);
  }

  lemma ImmediateBodyLeaves(i: G.Inst, d: Reg, s1: Reg, s2: Reg, c: Cpu)
    requires G.Decoded(i) && G.IsImm(i.op) && !IsCompare(i.op)
    requires Placement(i, d, s1, s2) && !ShortLeft(i) && !ShortRight(i)
    ensures Leaves(ImmediateBody(i, d, s1), c, d, Wanted(i, c, s1, s2))
  {
    hide Leaves, Look, Immediate, ImmediateOp, ImmWord, ImmediateValue, BitAnd, G.Value;
    if i.op.ANDI? && (i.rs1 == 0 || i.imm == 0) {
      MoveLeaves(d, s1, 0, c, None);
      ImmSext(0);
      AndZero(Src(i.rs1, c, s1), ImmWord(i.imm));
    } else {
      var code := Immediate(i, d, s1, ImmediateOp(i, d));
      ImmediateOpLeaves(i, d, s1, c);
      assert code + [] == code;
      if Narrow(i.op) {
        ThenSext(code, c, d, ImmediateValue(i, Look(c, s1)));
      }
      ImmediateMeaning(i, Look(c, s1));
    }
  }

  lemma AndZero(a: Word, b: Word)
    requires a == ZERO || b == ZERO
    ensures G.Value(G.ANDI, a, b) == ZERO
  {
  }

  function ImmediateValue(i: G.Inst, v: Word): Word {
    if G.IsShiftImm(i.op) || G.IsShiftImmW(i.op)
    then ShiftValue(ShiftOf(i.op), G.IsShiftImm(i.op), v, ImmWord(i.imm))
    else AluValue(AluOf(i.op), !Narrow(i.op), v, ImmWord(i.imm))
  }

  lemma ImmediateOpLeaves(i: G.Inst, d: Reg, s1: Reg, c: Cpu)
    requires G.Decoded(i) && G.IsImm(i.op) && !IsCompare(i.op) && d != RCX && (i.rd == i.rs1 ==> s1 == d)
    ensures Leaves(Immediate(i, d, s1, ImmediateOp(i, d)), c, d, ImmediateValue(i, Look(c, s1)))
  {
    hide Leaves, Look, Immediate, ImmWord, AluValue, ShiftValue;
    ImmediateLeaves(i, d, s1, ImmediateOp(i, d), c);
  }

  lemma ImmediateMeaning(i: G.Inst, v: Word)
    requires G.IsImm(i.op) && !IsCompare(i.op)
    ensures G.Value(i.op, v, ImmWord(i.imm))
         == if Narrow(i.op) then Sext32(ImmediateValue(i, v)) else ImmediateValue(i, v)
  {
    hide ImmWord, Plus, Plus32, BitXor, BitOr, BitAnd, Shl, Shr, Sar, Shl32, Shr32, Sar32, Sext32;
  }

  /** What a template may write. */
  function Clobber(i: G.Inst): Option<Reg> {
    if UsesRdi(i) then Some(RDI) else None
  }

  ghost predicate AllWrite(code: seq<Inst>, d: Reg, clobber: Option<Reg>) {
    forall x <- code :: Writes(x, d, clobber)
  }

  lemma WritesConcat(a: seq<Inst>, b: seq<Inst>, d: Reg, clobber: Option<Reg>)
    requires AllWrite(a, d, clobber) && AllWrite(b, d, clobber)
    ensures AllWrite(a + b, d, clobber)
  {
  }

  lemma BodyWrites(i: G.Inst, d: Reg, s1: Reg, s2: Reg)
    requires IsCompare(i.op) ==> ZeroInRdi(i, s1, s2)
    requires !G.IsStore(i.op)
    ensures AllWrite(Body(i, d, s1, s2), d, Clobber(i))
  {
    hide AddSubBody, CompareBody, ImmediateBody, BitwiseBody, ShiftRegister, AllWrite, ZeroInRdi, Clobber;
    if IsCompare(i.op) {
      CompareWrites(i, d, s1, s2);
    } else if G.IsImm(i.op) {
      ImmediateWrites(i, d, s1, Clobber(i));
    } else if IsAddSub(i.op) {
      AddSubWrites(i, d, s1, s2, Clobber(i));
    } else if IsBitwise(i.op) {
      BitwiseWrites(i, d, s1, s2, Clobber(i));
    } else {
      ShiftWrites(i, d, s1, s2, Clobber(i));
    }
  }

  lemma AluWrites(op: Alu, wide: bool, d: Reg, s: Reg, k: Option<Reg>)
    ensures AllWrite([AluRR(op, wide, d, s)], d, k)
  {
  }

  lemma BitwiseWrites(i: G.Inst, d: Reg, s1: Reg, s2: Reg, k: Option<Reg>)
    ensures AllWrite(BitwiseBody(i, d, s1, s2), d, k)
  {
    hide AllWrite, Settle, AluOf, Second;
    SettleWrites(i, d, s1, s2, k);
    AluWrites(Xor, true, d, d, k);
    AluWrites(AluOf(i.op), true, d, Second(i, s2), k);
    WritesConcat(Settle(i, d, s1, s2), [AluRR(AluOf(i.op), true, d, Second(i, s2))], d, k);
  }

  lemma ShiftWrites(i: G.Inst, d: Reg, s1: Reg, s2: Reg, k: Option<Reg>)
    ensures AllWrite(ShiftRegister(i, ShiftOf(i.op), !Narrow(i.op), d, s1, s2), d, k)
  {
    hide AllWrite, Settle, ShiftOf, Narrow, Second, ShiftBy;
    SettleWrites(i, d, s1, s2, k);
    ShiftByWrites(ShiftOf(i.op), !Narrow(i.op), d, Second(i, s2), k);
    WritesConcat(Settle(i, d, s1, s2), ShiftBy(ShiftOf(i.op), !Narrow(i.op), d, Second(i, s2)), d, k);
  }

  lemma ShiftByWrites(sh: Shift, wide: bool, d: Reg, s: Reg, k: Option<Reg>)
    ensures AllWrite(ShiftBy(sh, wide, d, s), d, k)
  {
    hide AllWrite;
    SextWrites(wide, d, k);
    PairWrites(sh, wide, d, s, k);
    WritesConcat([MovRR(RCX, s), ShiftCl(sh, wide, d)], if wide then [] else [Movsxd(d, d)], d, k);
  }

  lemma PairWrites(sh: Shift, wide: bool, d: Reg, s: Reg, k: Option<Reg>)
    ensures AllWrite([MovRR(RCX, s), ShiftCl(sh, wide, d)], d, k)
  {
  }

  lemma SettleWrites(i: G.Inst, d: Reg, s1: Reg, s2: Reg, k: Option<Reg>)
    ensures AllWrite(Settle(i, d, s1, s2), d, k)
  {
    hide AllWrite, Copy;
    CopyWrites(i.rd == i.rs1, d, s1, s2, k);
    WritesConcat([MovRR(RCX, s2)], Copy(i.rd == i.rs1, d, s1), d, k);
  }

  lemma CopyWrites(same: bool, d: Reg, s1: Reg, s2: Reg, k: Option<Reg>)
    ensures AllWrite(Copy(same, d, s1), d, k) && AllWrite([MovRR(RCX, s2)], d, k)
  {
  }

  lemma AddSubWrites(i: G.Inst, d: Reg, s1: Reg, s2: Reg, k: Option<Reg>)
    ensures AllWrite(AddSubBody(i, d, s1, s2), d, k)
  {
    var wide := !Narrow(i.op);
    AdditionWrites(i, wide, d, s1, s2, k);
    hide Addition, Subtraction, AllWrite;
    var last := if wide then [] else [Movsxd(d, d)];
    assert AllWrite(last, d, k) by { SextWrites(wide, d, k); }
    WritesConcat(if AluOf(i.op) == Add then Addition(i, wide, d, s1, s2) else Subtraction(i, wide, d, s1, s2),
                 last, d, k);
  }

  lemma SextWrites(wide: bool, d: Reg, k: Option<Reg>)
    ensures AllWrite(if wide then [] else [Movsxd(d, d)], d, k)
  {
  }

  lemma AdditionWrites(i: G.Inst, wide: bool, d: Reg, s1: Reg, s2: Reg, k: Option<Reg>)
    ensures AllWrite(Addition(i, wide, d, s1, s2), d, k)
    ensures AllWrite(Subtraction(i, wide, d, s1, s2), d, k)
  {
  }

  lemma ImmediateWrites(i: G.Inst, d: Reg, s1: Reg, k: Option<Reg>)
    ensures AllWrite(ImmediateBody(i, d, s1), d, k)
  {
    WritesConcat(Copy(i.rd == i.rs1, d, s1), [ImmediateOp(i, d)], d, k);
  }

  lemma CompareWrites(i: G.Inst, d: Reg, s1: Reg, s2: Reg)
    requires IsCompare(i.op) && ZeroInRdi(i, s1, s2)
    ensures AllWrite(CompareBody(i, d, s1, s2), d, Clobber(i))
  {
    hide ZeroIf;
    var k := Clobber(i);
    ZeroIfWrites(i.rs1 == 0, s1, d, k);
    if G.IsImm(i.op) {
      WritesConcat(ZeroIf(i.rs1 == 0, s1), [MovImm64(RCX, i.imm)], d, k);
    } else {
      ZeroIfWrites(i.rs2 == 0, s2, d, k);
      WritesConcat(ZeroIf(i.rs1 == 0, s1), ZeroIf(i.rs2 == 0, s2), d, k);
    }
  }

  lemma ZeroIfWrites(z: bool, r: Reg, d: Reg, clobber: Option<Reg>)
    requires z ==> clobber == Some(r)
    ensures AllWrite(ZeroIf(z, r), d, clobber)
  {
  }

  /** The whole template, shortcuts included. */
  lemma TemplateEffect(i: G.Inst, d: Reg, s1: Reg, s2: Reg, c: Cpu)
    requires G.Decoded(i) && !G.IsStore(i.op) && Placement(i, d, s1, s2) && ShortcutOk(i)
    requires UsesRdi(i) ==> RdiOk(i, s1, s2)
    ensures AllWrite(Template(i, d, s1, s2), d, Clobber(i))
    ensures Effect(c, RunLocal(Template(i, d, s1, s2), c), d, Wanted(i, c, s1, s2), Clobber(i))
  {
    hide Body, RunLocal, Keeps;
    if ShortLeft(i) || ShortRight(i) {
      ShortcutLeaves(i, d, s1, s2, c);
    } else {
      BodyWrites(i, d, s1, s2);
      BodyLeaves(i, d, s1, s2, c);
    }
    RunKeeps(Template(i, d, s1, s2), c, d, Clobber(i));
  }

  lemma ShortcutLeaves(i: G.Inst, d: Reg, s1: Reg, s2: Reg, c: Cpu)
    requires G.Decoded(i) && !G.IsStore(i.op) && Placement(i, d, s1, s2) && ShortcutOk(i)
    requires ShortLeft(i) || ShortRight(i)
    ensures AllWrite(Template(i, d, s1, s2), d, Clobber(i))
    ensures Leaves(Template(i, d, s1, s2), c, d, Wanted(i, c, s1, s2))
  {
    hide Body, ImmWord, G.Value, Leaves, AllWrite, Look;
    MoveLeaves(d, s1, 0, c, Clobber(i));
    MoveLeaves(d, s2, i.imm, c, Clobber(i));
    if ShortRight(i) {
      ImmSext(0);
      RightZero(i.op, Look(c, s1));
    } else {
      ShortLeftValue(i, if G.IsImm(i.op) then ImmWord(i.imm) else Src(i.rs2, c, s2));
    }
  }

  lemma MoveLeaves(d: Reg, s: Reg, imm: int, c: Cpu, k: Option<Reg>)
    ensures Leaves([AluRR(Xor, true, d, d)], c, d, ZERO) && AllWrite([AluRR(Xor, true, d, d)], d, k)
    ensures Leaves([MovRR(d, s)], c, d, Look(c, s)) && AllWrite([MovRR(d, s)], d, k)
    ensures Leaves([MovImm32(d, imm)], c, d, ImmWord(imm)) && AllWrite([MovImm32(d, imm)], d, k)
  {
    hide Leaves, Look, AluValue, BitXor, ImmWord;
    AluLeaves(Xor, true, d, s, d, c);
    XorSelf(Look(c, d));
    OneLeaves(MovRR(d, s), d, c);
    OneLeaves(MovImm32(d, imm), d, c);
  }

  lemma XorSelf(a: Word)
    ensures AluValue(Xor, true, a, a) == ZERO
  {
  }

  lemma OneLeaves(i: Inst, d: Reg, c: Cpu)
    requires (i.MovRR? || i.MovImm32?) && i.d == d
    ensures Leaves([i], c, d, if i.MovRR? then Look(c, i.s) else ImmWord(i.imm))
  {
    hide RunLocal, ImmWord;
    Run1Local(i, c);
  }

  lemma ShortLeftValue(i: G.Inst, b: Word)
    requires G.Decoded(i) && !G.IsStore(i.op) && ShortLeft(i) && ShortcutOk(i)
    requires if G.IsImm(i.op) then b == ImmWord(i.imm) else i.rs2 == 0 ==> b == ZERO
    ensures G.Value(i.op, ZERO, b) == b
    ensures G.IsImm(i.op) && i.imm == 0 ==> b == ZERO
  {
    hide ImmWord, G.Value;
    ImmSext(i.imm);
    if b == ZERO {
      BothZero(i.op);
    } else if i.op.ADDIW? {
      AddiwZero(b);
    } else {
      LeftZero(i.op, b);
    }
  }

  lemma AddiwZero(b: Word)
    ensures G.Value(G.ADDIW, ZERO, b) == Sext32(Plus32(ZERO, b))
  {
    hide Sext32, Plus32;
  }

  /** RDI compared with itself: `sltu rd, rd, x0` with rd in RDI. */
  lemma BelowZeroEffect(i: G.Inst, c: Cpu)
    requires i.op.SLTU? && i.rs2 == 0 && i.rs1 == i.rd && i.rd != 0
    ensures AllWrite(Template(i, RDI, RDI, RDI), RDI, Clobber(i))
    ensures Effect(c, RunLocal(Template(i, RDI, RDI, RDI), c), RDI, Wanted(i, c, RDI, RDI), Clobber(i))
  {
    hide RunLocal, Keeps, Compare, Truth;
    var code := CompareBody(i, RDI, RDI, RDI);
    CompareWrites(i, RDI, RDI, RDI);
    RunKeeps(code, c, RDI, Clobber(i));
    SelfCompareLeaves(i, Setb(RDI), c);
    BelowNothing(Look(c, RDI));
  }

  lemma BelowNothing(a: Word)
    ensures !Below(a, ZERO) && !Below(a, a) && !SignedLess(a, a)
    ensures Truth(false) == ZERO
  {
  }

  /** With both operands in RDI a comparison yields 0. */
  lemma SelfCompareLeaves(i: G.Inst, setcc: Inst, c: Cpu)
    requires setcc == Setl(RDI) || setcc == Setb(RDI)
    ensures Leaves(ZeroIf(i.rs1 == 0, RDI) + ZeroIf(i.rs2 == 0, RDI) + Compare(RDI, RDI, setcc, RDI), c, RDI, ZERO)
  {
    hide RunLocal, ZeroIf, Compare, Below, SignedLess;
    var z1, z2 := ZeroIf(i.rs1 == 0, RDI), ZeroIf(i.rs2 == 0, RDI);
    ZeroIfLeaves(i.rs1 == 0, RDI, c);
    ZeroIfLeaves(i.rs2 == 0, RDI, RunLocal(z1, c));
    RunAppendLocal(z1, z2, c);
    var c' := RunLocal(z1 + z2, c);
    CompareLeaves(RDI, RDI, setcc, RDI, c');
    RunAppendLocal(z1 + z2, Compare(RDI, RDI, setcc, RDI), c);
    BelowNothing(Look(c', RDI));
  }
}
