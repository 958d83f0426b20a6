/** The RV64I instructions the JIT's conversion table accepts, as the interpreter executes them. */
module Guest {
  import opened Words

  datatype Op =
    // R-type
    | ADD | ADDW | SUB | SUBW | XOR | OR | AND | SLL | SLLW | SRL | SRLW | SRA | SRAW | SLT | SLTU
    // I-type
    | ADDI | ADDIW | XORI | ORI | ANDI | SLLI | SLLIW | SRLI | SRLIW | SRAI | SRAIW | SLTI | SLTIU
    // S-type
    | SB | SH | SW | SD

  /** A decoded instruction; `imm` is the sign-extended immediate (or shift amount). */
  datatype Inst = Inst(op: Op, rd: nat, rs1: nat, rs2: nat, imm: int)

  predicate IsStore(op: Op) { op.SB? || op.SH? || op.SW? || op.SD? }

  predicate IsShiftImm(op: Op) { op.SLLI? || op.SRLI? || op.SRAI? }

  predicate IsShiftImmW(op: Op) { op.SLLIW? || op.SRLIW? || op.SRAIW? }

  predicate IsImm(op: Op) {
    op.ADDI? || op.ADDIW? || op.XORI? || op.ORI? || op.ANDI? || op.SLTI? || op.SLTIU? ||
    IsShiftImm(op) || IsShiftImmW(op)
  }

  /** What the field extractors of the decoder guarantee. */
  predicate Decoded(i: Inst) {
    && i.rd < 32 && i.rs1 < 32 && i.rs2 < 32
    && -2048 <= i.imm < 2048
    && (IsShiftImm(i.op) ==> 0 <= i.imm < 64)
    && (IsShiftImmW(i.op) ==> 0 <= i.imm < 32)
  }

  /** The value an `exec_*` function assigns to `rd`; `b` is GPR[rs2] or the immediate. */
  function Value(op: Op, a: Word, b: Word): Word {
    match op
    case ADD => Plus(a, b)
    case ADDW => Sext32(Plus32(a, b))
    case SUB => Minus(a, b)
    case SUBW => Sext32(Minus32(a, b))
    case XOR => BitXor(a, b)
    case OR => BitOr(a, b)
    case AND => BitAnd(a, b)
    case SLL => Shl(a, BitAnd(b, W(63)))
    case SLLW => Sext32(Shl32(a, BitAnd(b, W(31))))
    case SRL => Shr(a, BitAnd(b, W(63)))
    case SRLW => Sext32(Shr32(a, BitAnd(b, W(31))))
    case SRA => Sar(a, BitAnd(b, W(63)))
    case SRAW => Sext32(Sar32(a, BitAnd(b, W(31))))
    case SLT => Truth(SignedLess(a, b))
    case SLTU => Truth(Below(a, b))
    case ADDI => Plus(a, b)
    case ADDIW => Sext32(Plus32(a, b)) // the 64-bit sum is truncated
    case XORI => BitXor(a, b)
    case ORI => BitOr(a, b)
    case ANDI => BitAnd(a, b)
    case SLLI => Shl(a, b)
    case SLLIW => Sext32(Shl32(a, b))
    case SRLI => Shr(a, b)
    case SRLIW => Sext32(Shr32(a, b))
    case SRAI => Sar(a, b)
    case SRAIW => Sext32(Sar32(a, b))
    case SLTI => Truth(SignedLess(a, b))
    case SLTIU => Truth(Below(a, b))
    case _ => ZERO
  }

  /** Guest memory from 0x8000_0000 on, keyed by the offset from there. */
  type Ram = map<Word, bv8>

  function StoreWidth(op: Op): nat {
    match op
    case SB => 1
    case SH => 2
    case SW => 4
    case _ => 8
  }

  function LowestByte(v: bv64): bv8 { (v & 0xFF) as bv8 }

  function Down(v: bv64): bv64 { v >> 8 }

  /** `MemoryMap::store`: little-endian, `width` bytes. */
  function StoreBytes(ram: Ram, off: Word, width: nat, v: Word): Ram
    decreases width
  {
    if width == 0 then ram
    else StoreBytes(ram[off := LowestByte(v.bits)], Plus(off, ONE), width - 1, W(Down(v.bits)))
  }

  datatype State = State(x: seq<Word>, ram: Ram)

  ghost predicate Valid(g: State) { |g.x| == 32 }

  /** x0 reads as zero: the interpreter clears GPR[0] at every tick. */
  function Reg(g: State, r: nat): Word
    requires Valid(g) && r < 32
  {
    if r == 0 then ZERO else g.x[r]
  }

  /** Offset from the start of RAM, at 0x8000_0000, of the address a store computes. */
  function StoreOffset(base: Word, imm: int): Word {
    Minus(Minus(Plus(base, ImmWord(imm)), ImmWord(0x4000_0000)), ImmWord(0x4000_0000))
  }

  /** Every byte the store writes lies in RAM of `memsize` bytes. */
  predicate InRam(g: State, i: Inst, memsize: Word)
    requires Valid(g) && Decoded(i)
  {
    BytesInRam(StoreOffset(Reg(g, i.rs1), i.imm), StoreWidth(i.op), memsize)
  }

  predicate BytesInRam(off: Word, width: nat, memsize: Word)
    decreases width
  {
    width == 0 || (Below(off, memsize) && BytesInRam(Plus(off, ONE), width - 1, memsize))
  }

  function Exec(g: State, i: Inst): (g': State)
    requires Valid(g) && Decoded(i)
    ensures Valid(g')
  {
    hide Value, StoreBytes, StoreOffset;
    if IsStore(i.op) then
      var off := StoreOffset(Reg(g, i.rs1), i.imm);
      g.(ram := StoreBytes(g.ram, off, StoreWidth(i.op), Reg(g, i.rs2)))
    else
      var b := if IsImm(i.op) then ImmWord(i.imm) else Reg(g, i.rs2);
      g.(x := g.x[i.rd := Value(i.op, Reg(g, i.rs1), b)])
  }

  function ExecAll(g: State, code: seq<Inst>): (g': State)
    requires Valid(g) && forall i <- code :: Decoded(i)
    ensures Valid(g')
    decreases |code|
  {
    if code == [] then g else ExecAll(Exec(g, code[0]), code[1..])
  }
}
