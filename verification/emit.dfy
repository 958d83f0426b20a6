/** The code emitted for each guest instruction, and for a whole block. */
module Emit {
  import opened Wrappers
  import opened Host
  import opened Allocator
  import G = Guest

  /** An emitter takes a register number as `char`: 0xFF is -1, encoded as RDI without extension. */
  function Seen(s: HostSlot): Reg {
    if s.In? then s.r else RDI
  }

  /** The instruction families whose shared emitter shortcuts x0 sources and zero immediates. */
  predicate Shortcuts(op: G.Op) {
    !(op.AND? || op.SLT? || op.SLTU? || op.ANDI? || op.SLTI? || op.SLTIU?)
  }

  const UNLOCKED := Lock(NoHost, NoHost)

  /** Allocates rd, rs1 and rs2 in that order, each locking the ones before. */
  function Operands(a: Alloc, i: G.Inst): (o: Result)
    requires Coherent(a) && G.Decoded(i) && i.rd != 0
    ensures Coherent(o.a) && Straight(o.code)
    ensures o.a.v[i.rd].mapped
    ensures i.rs1 != 0 ==> o.a.v[i.rs1].mapped
    ensures !G.IsImm(i.op) && i.rs2 != 0 ==> o.a.v[i.rs2].mapped
  {
    hide AllocReg;
    var d := AllocReg(a, i.rd, UNLOCKED);
    var dh := d.a.v[i.rd].host;
    var s1 := AllocReg(d.a, i.rs1, Lock(dh, NoHost));
    if G.IsImm(i.op) then Result(s1.a, d.code + s1.code)
    else
      var s2 := AllocReg(s1.a, i.rs2, Lock(dh, s1.a.v[i.rs1].host));
      Result(s2.a, d.code + s1.code + s2.code)
  }

  function StoreOperands(a: Alloc, i: G.Inst): (o: Result)
    requires Coherent(a) && G.Decoded(i)
    ensures Coherent(o.a) && Straight(o.code)
    ensures i.rs1 != 0 ==> o.a.v[i.rs1].mapped
    ensures i.rs2 != 0 ==> o.a.v[i.rs2].mapped
  {
    hide AllocReg;
    var s1 := AllocReg(a, i.rs1, UNLOCKED);
    var s2 := AllocReg(s1.a, i.rs2, Lock(s1.a.v[i.rs1].host, NoHost));
    Result(s2.a, s1.code + s2.code)
  }

  /** mov d, s unless they name the same guest register */
  function Copy(same: bool, d: Reg, s: Reg): (c: seq<Inst>)
    ensures |c| <= 1
  {
    if same then [] else [MovRR(d, s)]
  }

  /**
   * The two-operand emitters other than addition and subtraction bring rs1 into `d` first, moving
   * rs2 out of the way to RCX when it lives there.
   */
  function Settle(i: G.Inst, d: Reg, s1: Reg, s2: Reg): (c: seq<Inst>)
    ensures |c| <= 2
  {
    if i.rd == i.rs2 then [MovRR(RCX, s2)] + Copy(i.rd == i.rs1, d, s1)
    else Copy(i.rd == i.rs1, d, s1)
  }

  /** Where the second operand is after `Settle`. */
  function Second(i: G.Inst, s2: Reg): Reg {
    if i.rd == i.rs2 then RCX else s2
  }

  function Bitwise(i: G.Inst, op: Alu, d: Reg, s1: Reg, s2: Reg): (c: seq<Inst>)
    ensures |c| <= 3
  {
    Settle(i, d, s1, s2) + [AluRR(op, true, d, Second(i, s2))]
  }

  function ShiftRegister(i: G.Inst, sh: Shift, wide: bool, d: Reg, s1: Reg, s2: Reg): (c: seq<Inst>)
    ensures |c| <= 5
  {
    Settle(i, d, s1, s2) + ShiftBy(sh, wide, d, Second(i, s2))
  }

  function ShiftBy(sh: Shift, wide: bool, d: Reg, s: Reg): (c: seq<Inst>)
    ensures |c| <= 3
  {
    [MovRR(RCX, s), ShiftCl(sh, wide, d)] + (if wide then [] else [Movsxd(d, d)])
  }

  function Addition(i: G.Inst, wide: bool, d: Reg, s1: Reg, s2: Reg): (c: seq<Inst>)
    ensures |c| <= 2
  {
    if i.rd != i.rs1 && i.rd != i.rs2 then [MovRR(d, s1), AluRR(Add, wide, d, s2)]
    else if i.rd == i.rs1 then [AluRR(Add, wide, d, s2)]
    else [AluRR(Add, wide, d, s1)]
  }

  function Subtraction(i: G.Inst, wide: bool, d: Reg, s1: Reg, s2: Reg): (c: seq<Inst>)
    ensures |c| <= 3
  {
    if i.rd != i.rs1 && i.rd != i.rs2 then [MovRR(d, s1), AluRR(Sub, wide, d, s2)]
    else if i.rd == i.rs1 then [AluRR(Sub, wide, d, s2)]
    else [MovRR(RCX, s2), MovRR(d, s1), AluRR(Sub, wide, d, RCX)]
  }

  function Immediate(i: G.Inst, d: Reg, s1: Reg, last: Inst): (c: seq<Inst>)
    ensures |c| <= 2
  {
    Copy(i.rd == i.rs1, d, s1) + [last]
  }

  function ZeroIf(zero: bool, r: Reg): (c: seq<Inst>)
    ensures |c| <= 1
  {
    if zero then [AluRR(Xor, true, r, r)] else []
  }

  function Compare(l: Reg, r: Reg, setcc: Inst, d: Reg): (c: seq<Inst>)
    ensures |c| <= 3
  {
    [Cmp(l, r), setcc, Movzx8(d, d)]
  }

  predicate IsAddSub(op: G.Op) { op.ADD? || op.ADDW? || op.SUB? || op.SUBW? }

  predicate IsBitwise(op: G.Op) { op.XOR? || op.OR? || op.AND? }

  predicate IsCompare(op: G.Op) { op.SLT? || op.SLTU? || op.SLTI? || op.SLTIU? }

  /** 32-bit operations, whose result is sign-extended by a final MOVSXD. */
  predicate Narrow(op: G.Op) {
    op.ADDW? || op.SUBW? || op.SLLW? || op.SRLW? || op.SRAW? || op.ADDIW? || G.IsShiftImmW(op)
  }

  predicate Signed(op: G.Op) { op.SLT? || op.SLTI? }

  function AluOf(op: G.Op): Alu {
    if op.XOR? || op.XORI? then Xor
    else if op.OR? || op.ORI? then Or
    else if op.AND? || op.ANDI? then And
    else if op.SUB? || op.SUBW? then Sub
    else Add
  }

  function ShiftOf(op: G.Op): Shift {
    if op.SLL? || op.SLLW? || op.SLLI? || op.SLLIW? then ShlOp
    else if op.SRL? || op.SRLW? || op.SRLI? || op.SRLIW? then ShrOp
    else SarOp
  }

  function AddSubBody(i: G.Inst, d: Reg, s1: Reg, s2: Reg): (c: seq<Inst>)
    ensures |c| <= 4
  {
    var wide := !Narrow(i.op);
    (if AluOf(i.op) == Add then Addition(i, wide, d, s1, s2) else Subtraction(i, wide, d, s1, s2))
    + (if wide then [] else [Movsxd(d, d)])
  }

  function BitwiseBody(i: G.Inst, d: Reg, s1: Reg, s2: Reg): (c: seq<Inst>)
    ensures |c| <= 3
  {
    if i.op.AND? && (i.rs1 == 0 || i.rs2 == 0) then [AluRR(Xor, true, d, d)]
    else Bitwise(i, AluOf(i.op), d, s1, s2)
  }

  function CompareBody(i: G.Inst, d: Reg, s1: Reg, s2: Reg): (c: seq<Inst>)
    ensures |c| <= 5
  {
    var setcc := if Signed(i.op) then Setl(d) else Setb(d);
    if G.IsImm(i.op)
    then ZeroIf(i.rs1 == 0, s1) + [MovImm64(RCX, i.imm)] + Compare(s1, RCX, setcc, d)
    else ZeroIf(i.rs1 == 0, s1) + ZeroIf(i.rs2 == 0, s2) + Compare(s1, s2, setcc, d)
  }

  function ImmediateBody(i: G.Inst, d: Reg, s1: Reg): (c: seq<Inst>)
    ensures |c| <= 3
  {
    if i.op.ANDI? && (i.rs1 == 0 || i.imm == 0) then [AluRR(Xor, true, d, d)]
    else
      var wide := !Narrow(i.op);
      Immediate(i, d, s1, ImmediateOp(i, d)) + (if wide then [] else [Movsxd(d, d)])
  }

  function ImmediateOp(i: G.Inst, d: Reg): Inst {
    if G.IsShiftImm(i.op) then ShiftImm(ShiftOf(i.op), true, d, i.imm % 64)
    else if G.IsShiftImmW(i.op) then ShiftImm(ShiftOf(i.op), false, d, i.imm % 32)
    else AluImm(AluOf(i.op), !Narrow(i.op), d, i.imm)
  }

  /** The `execjit_*` body for operands in `d`, `s1`, `s2`. */
  function Body(i: G.Inst, d: Reg, s1: Reg, s2: Reg): (c: seq<Inst>)
    ensures |c| <= 5
  {
    if IsCompare(i.op) then CompareBody(i, d, s1, s2)
    else if G.IsImm(i.op) then ImmediateBody(i, d, s1)
    else if IsAddSub(i.op) then AddSubBody(i, d, s1, s2)
    else if IsBitwise(i.op) then BitwiseBody(i, d, s1, s2)
    else ShiftRegister(i, ShiftOf(i.op), !Narrow(i.op), d, s1, s2)
  }

  /** The shared emitters' shortcuts, then the body. */
  function Template(i: G.Inst, d: Reg, s1: Reg, s2: Reg): seq<Inst> {
    if Shortcuts(i.op) && i.rs1 == 0 then
      if G.IsImm(i.op) then
        if i.imm == 0 then [AluRR(Xor, true, d, d)] else [MovImm32(d, i.imm)]
      else if i.rs2 == 0 then [AluRR(Xor, true, d, d)] else [MovRR(d, s2)]
    else if Shortcuts(i.op) && (if G.IsImm(i.op) then i.imm == 0 else i.rs2 == 0) then
      [MovRR(d, s1)]
    else
      Body(i, d, s1, s2)
  }

  // Field offsets of the hart context R12 points at.
  const CTX_REGS := 0
  const CTX_RAM := 8
  const CTX_MEMSIZE := 24
  const CTX_HART := 40

  function Ctx(off: int): Mem { Mem(R12, None, 0, off) }

  /** Stands for the host address of the matching `jit_slow_*` function. */
  function SlowFind(op: G.Op): int { G.StoreWidth(op) }

  /** Offset into RAM in RCX, compared with the size of RAM. */
  function StoreCheck(i: G.Inst, s1: Reg): seq<Inst> {
    [MovRR(RCX, s1), AluImm(Add, true, RCX, i.imm), AluImm(Sub, true, RCX, 0x4000_0000),
     AluImm(Sub, true, RCX, 0x4000_0000), CmpMem(RCX, Ctx(CTX_MEMSIZE))]
  }

  function StoreSlow(i: G.Inst, s2: Reg, skip: int): seq<Inst> {
    [Push(RDI), Push(RSI), Push(RAX), Push(RDX),
     if i.rs2 == 0 then AluRR(Xor, true, RDX, RDX) else MovRR(RDX, s2),
     MovRR(RSI, RCX), Load(RDI, Ctx(CTX_HART)), MovImm64(RAX, SlowFind(i.op)), Call(RAX),
     Pop(RDX), Pop(RAX), Pop(RSI), Pop(RDI), Jmp8(skip)]
  }

  function StoreFast(i: G.Inst, s2: Reg): seq<Inst> {
    var target := Mem(R14, Some(RCX), 0, 0);
    var width := G.StoreWidth(i.op);
    if i.rs2 == 0
    then [Push(RAX), AluRR(Xor, true, RAX, RAX), Store(width, RAX, target), Pop(RAX)]
    else [Store(width, s2, target)]
  }

  function StoreBody(i: G.Inst, s1: Reg, s2: Reg): seq<Inst> {
    var fast := StoreFast(i, s2);
    var slow := StoreSlow(i, s2, SizeAll(fast));
    StoreCheck(i, s1) + [Jbe8(SizeAll(slow))] + slow + fast
  }

  /** One guest instruction. */
  function EmitInst(a: Alloc, i: G.Inst): (r: Result)
    requires Coherent(a) && G.Decoded(i)
    ensures Coherent(r.a)
  {
    hide Operands, StoreOperands, Template, StoreBody;
    if G.IsStore(i.op) then
      var o := StoreOperands(a, i);
      Result(o.a, o.code + StoreBody(i, Seen(o.a.v[i.rs1].host), Seen(o.a.v[i.rs2].host)))
    else if i.rd == 0 then
      Result(a, [])
    else
      var o := Operands(a, i);
      MarkDirtyCoherent(o.a, i.rd);
      Result(
        MarkDirty(o.a, i.rd),
        o.code + Template(i, Seen(o.a.v[i.rd].host), Seen(o.a.v[i.rs1].host), Seen(o.a.v[i.rs2].host)))
  }

  function MarkDirty(a: Alloc, r: nat): Alloc
    requires r < |a.v|
  {
    a.(v := a.v[r := a.v[r].(dirty := true)])
  }

  lemma MarkDirtyCoherent(a: Alloc, r: nat)
    requires Coherent(a) && 1 <= r < 32 && a.v[r].mapped
    ensures Coherent(MarkDirty(a, r))
  {
    var a' := MarkDirty(a, r);
    forall i | 1 <= i < 32 && a'.v[i].mapped ensures Placed(a', i) { assert Placed(a, i); }
    forall k | 0 <= k < POOL && a'.h[k].used ensures Owned(a', k) { assert Owned(a, k); }
  }

  const PROLOGUE: seq<Inst> :=
    [Push(R12), Push(R13), Push(R14), MovRR(R12, RDI), Load(R13, Ctx(CTX_REGS)), Load(R14, Ctx(CTX_RAM))]

  const LEAVE: seq<Inst> := [Pop(R14), Pop(R13), Pop(R12), Ret]

  /** Writes back the dirty guest registers from `i` on. */
  function WriteBack(a: Alloc, i: nat): seq<Inst>
    requires Shape(a) && i <= 32
    decreases 32 - i
  {
    if i == 32 then []
    else
      (if a.v[i].mapped && a.v[i].dirty && !a.v[i].isZero
       then [Store(8, Seen(a.v[i].host), Home(i))] else []) + WriteBack(a, i + 1)
  }

  /** A block in progress: allocator state and body code after some instructions. */
  function Compile(code: seq<G.Inst>): (r: Result)
    requires forall i <- code :: G.Decoded(i)
    ensures Coherent(r.a)
  {
    hide EmitInst;
    FreshCoherent();
    if code == [] then Result(Fresh(), [])
    else
      var n := |code| - 1;
      var prev := Compile(code[..n]);
      var last := EmitInst(prev.a, code[n]);
      Result(last.a, prev.code + last.code)
  }

  lemma FreshCoherent()
    ensures Coherent(Fresh())
  {
  }

  /** The finished function. */
  function Function(code: seq<G.Inst>): seq<Inst>
    requires forall i <- code :: G.Decoded(i)
  {
    var b := Compile(code);
    PROLOGUE + b.code + WriteBack(b.a, 0) + LEAVE
  }
}
