/** The x86-64 instructions the JIT emits, over an abstract register file and memory. */
module Host {
  import opened Wrappers
  import opened Words
  import Guest

  datatype Reg =
    RAX | RCX | RDX | RBX | RSP | RBP | RSI | RDI | R8 | R9 | R10 | R11 | R12 | R13 | R14 | R15

  datatype Alu = Add | Sub | Xor | Or | And

  datatype Shift = ShlOp | ShrOp | SarOp

  /** [base + index << scale + disp] */
  datatype Mem = Mem(base: Reg, index: Option<Reg>, scale: nat, disp: int)

  datatype Inst =
    | Push(r: Reg) | Pop(r: Reg) | Ret | Call(r: Reg)
    | MovRR(d: Reg, s: Reg)
    | AluRR(op: Alu, wide: bool, d: Reg, s: Reg)
    | AluImm(op: Alu, wide: bool, d: Reg, imm: int)
    | MovImm32(d: Reg, imm: int) | MovImm64(d: Reg, imm: int)
    | Movsxd(d: Reg, s: Reg) | Movzx8(d: Reg, s: Reg)
    | ShiftCl(sh: Shift, wide: bool, d: Reg) | ShiftImm(sh: Shift, wide: bool, d: Reg, n: nat)
    | Cmp(l: Reg, rr: Reg) | Setl(d: Reg) | Setb(d: Reg)
    | Load(d: Reg, m: Mem) | Store(width: nat, s: Reg, m: Mem) | CmpMem(l: Reg, m: Mem)
    | Jbe8(rel: int) | Jmp8(rel: int)

  /** The flags, as the last CMP left them; any other arithmetic makes them unknown. */
  datatype Flags = Unknown | Compared(l: Word, r: Word)

  /**
   * Registers and flags. `ok` turns false when code reads a slot that does not exist, pops an empty
   * stack, tests unknown flags, or leaves for code that is not part of this model.
   */
  datatype Cpu = Cpu(regs: map<Reg, Word>, flags: Flags, ok: bool)

  function Look(c: Cpu, r: Reg): Word {
    if r in c.regs then c.regs[r] else ZERO
  }

  function Put(c: Cpu, r: Reg, v: Word): Cpu { c.(regs := c.regs[r := v]) }

  /** `Put` by an instruction that leaves the flags unknown. */
  function PutArith(c: Cpu, r: Reg, v: Word): Cpu { Cpu(c.regs[r := v], Unknown, c.ok) }

  function Fault(c: Cpu): Cpu { c.(ok := false) }

  datatype Slot = Slot(obj: Word, disp: int)

  /**
   * Memory is a set of objects: a 64-bit slot is named by the pointer to its object and its byte
   * displacement. Guest RAM is the object at `ramPtr`, reached byte by byte through an index register.
   * The stack is kept apart.
   */
  datatype Machine = Machine(
    cpu: Cpu, mem: map<Slot, Word>, ram: Guest.Ram, ramPtr: Word, stack: seq<Word>)

  function Get(m: Machine, r: Reg): Word { Look(m.cpu, r) }

  function Set(m: Machine, r: Reg, v: Word): Machine { m.(cpu := Put(m.cpu, r, v)) }

  function Stop(m: Machine): Machine { m.(cpu := Fault(m.cpu)) }

  function Addr(m: Machine, a: Mem): Slot { Slot(Get(m, a.base), a.disp) }

  function AluValue(op: Alu, wide: bool, a: Word, b: Word): Word {
    match op
    case Add => if wide then Plus(a, b) else Plus32(a, b)
    case Sub => if wide then Minus(a, b) else Minus32(a, b)
    case Xor => BitXor(a, b) // emitted for 64-bit operands only, like the next two
    case Or => BitOr(a, b)
    case And => BitAnd(a, b)
  }

  function ShiftValue(sh: Shift, wide: bool, a: Word, n: Word): Word {
    match sh
    case ShlOp => if wide then Shl(a, n) else Shl32(a, n)
    case ShrOp => if wide then Shr(a, n) else Shr32(a, n)
    case SarOp => if wide then Sar(a, n) else Sar32(a, n)
  }

  /** Instructions on registers and flags alone. */
  predicate IsLocal(i: Inst) {
    i.MovRR? || i.AluRR? || i.AluImm? || i.MovImm32? || i.MovImm64? || i.Movsxd? || i.Movzx8? ||
    i.ShiftCl? || i.ShiftImm? || i.Cmp? || i.Setl? || i.Setb?
  }

  function StepLocal(i: Inst, c: Cpu): Cpu {
    match i
    case MovRR(d, s) => Put(c, d, Look(c, s))
    case AluRR(op, wide, d, s) => PutArith(c, d, AluValue(op, wide, Look(c, d), Look(c, s)))
    case AluImm(op, wide, d, imm) => PutArith(c, d, AluValue(op, wide, Look(c, d), ImmWord(imm)))
    case MovImm32(d, imm) => Put(c, d, ImmWord(imm))
    case MovImm64(d, imm) => Put(c, d, ImmWord(imm))
    case Movsxd(d, s) => Put(c, d, Sext32(Look(c, s)))
    case Movzx8(d, s) => Put(c, d, LowByte(Look(c, s)))
    case ShiftCl(sh, wide, d) =>
      PutArith(c, d, ShiftValue(sh, wide, Look(c, d), BitAnd(Look(c, RCX), if wide then W(63) else W(31))))
    case ShiftImm(sh, wide, d, n) =>
      PutArith(c, d, ShiftValue(sh, wide, Look(c, d), ImmWord(if wide then n % 64 else n % 32)))
    case Cmp(l, r) => c.(flags := Compared(Look(c, l), Look(c, r)))
    case Setl(d) =>
      if c.flags.Unknown? then Fault(c)
      else Put(c, d, SetByte(Look(c, d), SignedLess(c.flags.l, c.flags.r)))
    case Setb(d) =>
      if c.flags.Unknown? then Fault(c)
      else Put(c, d, SetByte(Look(c, d), Below(c.flags.l, c.flags.r)))
    case _ => Fault(c)
  }

  /** Every instruction but the jumps. */
  function Step(i: Inst, m: Machine): Machine {
    if IsLocal(i) then m.(cpu := StepLocal(i, m.cpu))
    else
      match i
      case Push(r) => m.(stack := [Get(m, r)] + m.stack)
      case Pop(r) => if m.stack == [] then Stop(m) else Set(m, r, m.stack[0]).(stack := m.stack[1..])
      case Load(d, a) =>
        if a.index.None? && Addr(m, a) in m.mem then Set(m, d, m.mem[Addr(m, a)]) else Stop(m)
      case Store(width, s, a) =>
        if a.index.Some? && Get(m, a.base) == m.ramPtr && a.scale == 0 && a.disp == 0 then
          m.(ram := Guest.StoreBytes(m.ram, Get(m, a.index.value), width, Get(m, s)))
        else if a.index.None? && width == 8 && Addr(m, a) in m.mem then
          m.(mem := m.mem[Addr(m, a) := Get(m, s)])
        else
          Stop(m)
      case CmpMem(l, a) =>
        if a.index.None? && Addr(m, a) in m.mem
        then m.(cpu := m.cpu.(flags := Compared(Get(m, l), m.mem[Addr(m, a)]))) else Stop(m)
      case _ => Stop(m)
  }

  /** SETcc writes the low byte only. */
  function SetByte(before: Word, c: bool): Word {
    W((before.bits & 0xFFFF_FFFF_FFFF_FF00) | Truth(c).bits)
  }

  function LowByte(a: Word): Word { W(a.bits & 0xFF) }

  /** Encoded length of an instruction, in bytes. */
  function Size(i: Inst): nat {
    match i
    case Push(r) => if Extended(r) then 2 else 1
    case Pop(r) => if Extended(r) then 2 else 1
    case Ret => 1
    case Call(_) => 3
    case MovRR(_, _) => 3
    case AluRR(_, _, _, _) => 3
    case AluImm(_, _, _, _) => 7
    case MovImm32(_, _) => 7
    case MovImm64(_, _) => 10
    case Movsxd(_, _) => 3
    case Movzx8(_, _) => 4
    case ShiftCl(_, _, _) => 3
    case ShiftImm(_, _, _, _) => 4
    case Cmp(_, _) => 3
    case Setl(d) => if NeedsRexForByte(d) then 4 else 3
    case Setb(d) => if NeedsRexForByte(d) then 4 else 3
    case Load(_, a) => 2 + MemSize(a)
    case Store(width, _, a) => (if width == 2 then 3 else 2) + MemSize(a)
    case CmpMem(_, a) => 2 + MemSize(a)
    case Jbe8(_) => 2
    case Jmp8(_) => 2
  }

  predicate Extended(r: Reg) { r.R8? || r.R9? || r.R10? || r.R11? || r.R12? || r.R13? || r.R14? || r.R15? }

  predicate NeedsRexForByte(r: Reg) { !(r.RAX? || r.RCX? || r.RDX? || r.RBX?) }

  /** ModR/M, optional SIB, optional displacement. */
  function MemSize(a: Mem): nat {
    1 + (if NeedsSib(a) then 1 else 0) + (if DispMode(a) == 0 then 0 else if DispMode(a) == 1 then 1 else 4)
  }

  predicate NeedsSib(a: Mem) { a.index.Some? || a.base.RSP? || a.base.R12? }

  /** The `mod` field `sib_helper` chooses. */
  function DispMode(a: Mem): (mod: nat)
    ensures mod <= 2
  {
    if a.disp == 0 && !a.base.RBP? && !a.base.R13? then 0
    else if -128 <= a.disp <= 127 then 1
    else 2
  }

  function SizeAll(code: seq<Inst>): nat {
    if code == [] then 0 else Size(code[0]) + SizeAll(code[1..])
  }

  /** The instructions left when a forward jump skips `n` bytes; none if it lands inside one. */
  function Skip(code: seq<Inst>, n: int): (r: Option<seq<Inst>>)
    ensures r.Some? ==> |r.value| <= |code|
  {
    if n == 0 then Some(code)
    else if n < 0 || code == [] then None
    else Skip(code[1..], n - Size(code[0]))
  }

  /** Runs straight-line code with forward jumps up to RET or the end. */
  function Run(code: seq<Inst>, m: Machine): Machine
    decreases |code|, 0
  {
    if code == [] || code[0].Ret? then m
    else if code[0].Jbe8? then
      if m.cpu.flags.Unknown? then Run(code[1..], Stop(m))
      else if !Below(m.cpu.flags.r, m.cpu.flags.l) then Jump(code[1..], code[0].rel, m)
      else Run(code[1..], m)
    else if code[0].Jmp8? then Jump(code[1..], code[0].rel, m)
    else Run(code[1..], Step(code[0], m))
  }

  function Jump(code: seq<Inst>, rel: int, m: Machine): Machine
    decreases |code|, 1
  {
    var target := Skip(code, rel);
    if target.None? then Stop(m) else Run(target.value, m)
  }

  /** No jumps and no return. */
  predicate Straight(code: seq<Inst>) {
    forall i <- code :: !i.Ret? && !i.Jbe8? && !i.Jmp8?
  }

  /** No return, and every jump lands on an instruction boundary of `code` or its end. */
  predicate Closed(code: seq<Inst>) {
    code == [] ||
    (&& !code[0].Ret?
     && (code[0].Jbe8? || code[0].Jmp8? ==> Skip(code[1..], code[0].rel).Some?)
     && Closed(code[1..]))
  }

  lemma {:induction false} StraightClosed(code: seq<Inst>)
    requires Straight(code)
    ensures Closed(code)
    decreases |code|
  {
    if code != [] {
      assert code[0] in code;
      StraightClosed(code[1..]);
    }
  }

  lemma {:induction false} ClosedAppend(a: seq<Inst>, b: seq<Inst>)
    requires Closed(a) && Closed(b)
    ensures Closed(a + b)
    decreases |a|
  {
    if a == [] {
      assert a + b == b;
    } else {
      assert (a + b)[1..] == a[1..] + b;
      ClosedAppend(a[1..], b);
      if a[0].Jbe8? || a[0].Jmp8? { SkipAppend(a[1..], b, a[0].rel); }
    }
  }

  /** Skipping inside `a` is not affected by what follows, and leaves closed code closed. */
  lemma {:induction false} SkipAppend(a: seq<Inst>, b: seq<Inst>, n: int)
    requires Skip(a, n).Some?
    ensures Skip(a + b, n) == Some(Skip(a, n).value + b)
    ensures Closed(a) ==> Closed(Skip(a, n).value)
    decreases |a|
  {
    if n != 0 {
      assert (a + b)[1..] == a[1..] + b;
      SkipAppend(a[1..], b, n - Size(a[0]));
    }
  }

  /** Composition of closed code is composition of runs. */
  lemma {:induction false} RunAppend(a: seq<Inst>, b: seq<Inst>, m: Machine)
    requires Closed(a)
    ensures Run(a + b, m) == Run(b, Run(a, m))
    decreases |a|
  {
    hide Step;
    if a == [] {
      assert a + b == b;
    } else {
      var rest := a[1..];
      assert (a + b)[1..] == rest + b;
      if (a[0].Jbe8? && m.cpu.flags.Compared? && !Below(m.cpu.flags.r, m.cpu.flags.l)) || a[0].Jmp8? {
        SkipAppend(rest, b, a[0].rel);
        RunAppend(Skip(rest, a[0].rel).value, b, m);
      } else if a[0].Jbe8? && m.cpu.flags.Unknown? {
        RunAppend(rest, b, Stop(m));
      } else {
        RunAppend(rest, b, if a[0].Jbe8? then m else Step(a[0], m));
      }
    }
  }

  lemma RunStraight(a: seq<Inst>, b: seq<Inst>, m: Machine)
    requires Straight(a)
    ensures Run(a + b, m) == Run(b, Run(a, m))
  {
    StraightClosed(a);
    RunAppend(a, b, m);
  }

  lemma {:induction false} SizeAppend(a: seq<Inst>, b: seq<Inst>)
    ensures SizeAll(a + b) == SizeAll(a) + SizeAll(b)
    decreases |a|
  {
    if a == [] {
      assert a + b == b;
    } else {
      assert (a + b)[1..] == a[1..] + b;
      SizeAppend(a[1..], b);
    }
  }
}
