/** Bytes of the emitted instructions, and a decoder that follows the x86-64 encoding rules. */
module Encode {
  import opened Wrappers
  import opened Host

  type Byte = b: int | 0 <= b < 256

  function Code(r: Reg): (c: nat)
    ensures c < 16 && FromCode(c) == r
  {
    match r
    case RAX => 0 case RCX => 1 case RDX => 2 case RBX => 3
    case RSP => 4 case RBP => 5 case RSI => 6 case RDI => 7
    case R8 => 8 case R9 => 9 case R10 => 10 case R11 => 11
    case R12 => 12 case R13 => 13 case R14 => 14 case R15 => 15
  }

  function FromCode(c: nat): Reg {
    match c
    case 0 => RAX case 1 => RCX case 2 => RDX case 3 => RBX
    case 4 => RSP case 5 => RBP case 6 => RSI case 7 => RDI
    case 8 => R8 case 9 => R9 case 10 => R10 case 11 => R11
    case 12 => R12 case 13 => R13 case 14 => R14 case _ => R15
  }

  function Bit(c: bool): nat { if c then 1 else 0 }

  function RexByte(w: bool, r: bool, x: bool, b: bool): Byte {
    0x40 + 8 * Bit(w) + 4 * Bit(r) + 2 * Bit(x) + Bit(b)
  }

  function ModRm(mod: nat, reg: nat, rm: nat): Byte
    requires mod < 4
  {
    64 * mod + 8 * (reg % 8) + rm % 8
  }

  /** `n` little-endian bytes of `v`, two's complement. */
  function Le(v: int, n: nat): (s: seq<Byte>)
    ensures |s| == n
    decreases n
  {
    if n == 0 then [] else [v % 256] + Le(v / 256, n - 1)
  }

  /** `sib_helper`: ModR/M, SIB when the base or an index needs it, displacement. */
  function MemBytes(reg: nat, a: Mem): seq<Byte>
    requires a.scale < 4
  {
    var mod := DispMode(a);
    var index := if a.index.Some? then Code(a.index.value) else 4;
    [ModRm(mod, reg, if NeedsSib(a) then 4 else Code(a.base))]
    + (if NeedsSib(a) then [ModRm(a.scale, index, Code(a.base))] else [])
    + DispBytes(a)
  }

  /** REX for a memory operand. */
  function MemRex(wide: bool, reg: Reg, a: Mem): Byte {
    RexByte(wide, Code(reg) > 7, a.index.Some? && Code(a.index.value) > 7, Code(a.base) > 7)
  }

  function AluOpcode(op: Alu): Byte {
    match op case Add => 0x01 case Sub => 0x29 case Xor => 0x31 case Or => 0x09 case And => 0x21
  }

  function AluDigit(op: Alu): nat {
    match op case Add => 0 case Sub => 5 case Xor => 6 case Or => 1 case And => 4
  }

  function ShiftDigit(sh: Shift): nat {
    match sh case ShlOp => 4 case ShrOp => 5 case SarOp => 7
  }

  /** Operand widths and fields that have an encoding. RSP as an index means "no index". */
  predicate MemOk(a: Mem) {
    && a.index != Some(RSP) && a.scale < 4 && (a.index.None? ==> a.scale == 0)
    && -0x8000_0000 <= a.disp < 0x8000_0000
  }

  predicate Encodable(i: Inst) {
    match i
    case AluImm(_, _, _, imm) => -0x8000_0000 <= imm < 0x8000_0000
    case MovImm32(_, imm) => -0x8000_0000 <= imm < 0x8000_0000
    case MovImm64(_, imm) => -0x8000_0000_0000_0000 <= imm < 0x8000_0000_0000_0000
    case ShiftImm(_, _, _, n) => n < 128
    case Load(_, a) => MemOk(a)
    case Store(width, _, a) => MemOk(a) && (width == 1 || width == 2 || width == 4 || width == 8)
    case CmpMem(_, a) => MemOk(a)
    case Jbe8(rel) => -128 <= rel < 128
    case Jmp8(rel) => -128 <= rel < 128
    case _ => true
  }

  /** REX prefix for a register operand pair: `reg` in the REG field, `rm` in the RM field. */
  function RegRex(wide: bool, reg: nat, rm: Reg): Byte {
    RexByte(wide, reg > 7, false, Code(rm) > 7)
  }

  function Bytes(i: Inst): seq<Byte>
    requires Encodable(i)
  {
    match i
    case Push(r) => (if Code(r) > 7 then [0x41] else []) + [0x50 + Code(r) % 8]
    case Pop(r) => (if Code(r) > 7 then [0x41] else []) + [0x58 + Code(r) % 8]
    case Ret => [0xC3]
    case Call(r) => [RegRex(true, 0, r), 0xFF, ModRm(3, 2, Code(r))]
    case MovRR(d, s) => [RegRex(true, Code(s), d), 0x89, ModRm(3, Code(s), Code(d))]
    case AluRR(op, wide, d, s) => [RegRex(wide, Code(s), d), AluOpcode(op), ModRm(3, Code(s), Code(d))]
    case AluImm(op, wide, d, imm) =>
      [RegRex(wide, 0, d), 0x81, ModRm(3, AluDigit(op), Code(d))] + Le(imm, 4)
    case MovImm32(d, imm) => [RegRex(true, 0, d), 0xC7, ModRm(3, 0, Code(d))] + Le(imm, 4)
    case MovImm64(d, imm) => [RegRex(true, 0, d), 0xB8 + Code(d) % 8] + Le(imm, 8)
    case Movsxd(d, s) => [RegRex(true, Code(d), s), 0x63, ModRm(3, Code(d), Code(s))]
    case Movzx8(d, s) => [RegRex(true, Code(d), s), 0x0F, 0xB6, ModRm(3, Code(d), Code(s))]
    case ShiftCl(sh, wide, d) => [RegRex(wide, 0, d), 0xD3, ModRm(3, ShiftDigit(sh), Code(d))]
    case ShiftImm(sh, wide, d, n) => [RegRex(wide, 0, d), 0xC1, ModRm(3, ShiftDigit(sh), Code(d)), n]
    case Cmp(l, r) => [RegRex(true, Code(r), l), 0x39, ModRm(3, Code(r), Code(l))]
    case Setl(d) => (if Code(d) > 3 then [RegRex(false, 0, d)] else []) + [0x0F, 0x9C, ModRm(3, 0, Code(d))]
    case Setb(d) => (if Code(d) > 3 then [RegRex(false, 0, d)] else []) + [0x0F, 0x92, ModRm(3, 0, Code(d))]
    case Load(d, a) => [MemRex(true, d, a), 0x8B] + MemBytes(Code(d), a)
    case Store(width, s, a) =>
      (if width == 2 then [0x66] else [])
      + [MemRex(width == 8, s, a), if width == 1 then 0x88 else 0x89] + MemBytes(Code(s), a)
    case CmpMem(l, a) => [MemRex(true, l, a), 0x3B] + MemBytes(Code(l), a)
    case Jbe8(rel) => [0x76] + Le(rel, 1)
    case Jmp8(rel) => [0xEB] + Le(rel, 1)
  }

  function BytesAll(code: seq<Inst>): seq<Byte>
    requires forall i <- code :: Encodable(i)
  {
    if code == [] then [] else Bytes(code[0]) + BytesAll(code[1..])
  }

  lemma BytesSize(i: Inst)
    requires Encodable(i)
    ensures |Bytes(i)| == Size(i)
  {
  }

  // Decoding.

  datatype Rex = Rex(w: bool, r: bool, x: bool, b: bool)

  const NO_REX := Rex(false, false, false, false)

  function ParseRex(b: Byte): Rex {
    Rex(b / 8 % 2 == 1, b / 4 % 2 == 1, b / 2 % 2 == 1, b % 2 == 1)
  }

  /** Signed value of little-endian bytes. */
  function FromLe(s: seq<Byte>): int {
    if s == [] then 0 else if |s| == 1 then (if s[0] >= 128 then s[0] - 256 else s[0])
    else s[0] + 256 * FromLe(s[1..])
  }

  datatype Operand = RegOp(r: Reg) | MemOp(a: Mem)

  datatype Decoded<T> = Bad | Good(value: T, rest: seq<Byte>)

  /** ModR/M and what follows it, by the tables for 64-bit addressing. */
  function DecodeOperand(rex: Rex, s: seq<Byte>): Decoded<(nat, Operand)> {
    if |s| == 0 then Bad
    else
      var mod, reg, rm := s[0] / 64, s[0] / 8 % 8 + 8 * Bit(rex.r), s[0] % 8;
      if mod == 3 then Good((reg, RegOp(FromCode(rm + 8 * Bit(rex.b)))), s[1..])
      else if rm == 4 then
        if |s| < 2 then Bad
        else
          var scale, index, base := s[1] / 64, s[1] / 8 % 8 + 8 * Bit(rex.x), s[1] % 8 + 8 * Bit(rex.b);
          if base % 8 == 5 && mod == 0 then Bad // no base register: not emitted
          else
            DecodeDisp(reg, mod, Mem(FromCode(base), if index == 4 then None else Some(FromCode(index)), scale, 0), s[2..])
      else if rm == 5 && mod == 0 then Bad // RIP-relative: not emitted
      else DecodeDisp(reg, mod, Mem(FromCode(rm + 8 * Bit(rex.b)), None, 0, 0), s[1..])
  }

  function DecodeDisp(reg: nat, mod: nat, a: Mem, s: seq<Byte>): Decoded<(nat, Operand)> {
    var n := if mod == 0 then 0 else if mod == 1 then 1 else 4;
    if |s| < n then Bad else Good((reg, MemOp(a.(disp := FromLe(s[..n])))), s[n..])
  }

  function AluWith(opcode: Byte): Option<Alu> {
    match opcode
    case 0x01 => Some(Add) case 0x29 => Some(Sub) case 0x31 => Some(Xor) case 0x09 => Some(Or) case 0x21 => Some(And)
    case _ => None
  }

  function AluWithDigit(digit: nat): Option<Alu> {
    match digit
    case 0 => Some(Add) case 5 => Some(Sub) case 6 => Some(Xor) case 1 => Some(Or) case 4 => Some(And)
    case _ => None
  }

  function ShiftWithDigit(digit: nat): Option<Shift> {
    match digit case 4 => Some(ShlOp) case 5 => Some(ShrOp) case 7 => Some(SarOp) case _ => None
  }

  /** One instruction of the emitted subset: prefixes, then opcode. */
  function Decode(s: seq<Byte>): Decoded<Inst> {
    var short := |s| > 0 && s[0] == 0x66;
    var s := if short then s[1..] else s;
    var rexed := |s| > 0 && 0x40 <= s[0] < 0x50;
    var rex := if rexed then ParseRex(s[0]) else NO_REX;
    var s := if rexed then s[1..] else s;
    if |s| == 0 then Bad else DecodeOp(short, rexed, rex, s[0], s[1..])
  }

  function DecodeOp(short: bool, rexed: bool, rex: Rex, op: Byte, s: seq<Byte>): Decoded<Inst> {
    if 0x50 <= op < 0x58 then Good(Push(FromCode(op - 0x50 + 8 * Bit(rex.b))), s)
    else if 0x58 <= op < 0x60 then Good(Pop(FromCode(op - 0x58 + 8 * Bit(rex.b))), s)
    else if 0xB8 <= op < 0xC0 then
      if |s| < 8 || !rex.w then Bad
      else Good(MovImm64(FromCode(op - 0xB8 + 8 * Bit(rex.b)), FromLe(s[..8])), s[8..])
    else if op == 0xC3 then Good(Ret, s)
    else if op == 0x76 || op == 0xEB then
      if |s| < 1 then Bad
      else Good(if op == 0x76 then Jbe8(FromLe(s[..1])) else Jmp8(FromLe(s[..1])), s[1..])
    else if op == 0x0F then
      if |s| < 1 then Bad else DecodeTwoByte(rexed, rex, s[0], DecodeOperand(rex, s[1..]))
    else
      var m := DecodeOperand(rex, s);
      if m.Bad? then Bad
      else if m.value.1.MemOp? then DecodeMem(short, rex.w, op, m.value.0, m.value.1.a, m.rest)
      else DecodeReg(rex.w, op, m.value.0, m.value.1.r, m.rest)
  }

  function DecodeTwoByte(rexed: bool, rex: Rex, op: Byte, m: Decoded<(nat, Operand)>): Decoded<Inst> {
    if m.Bad? || m.value.1.MemOp? then Bad
    else
      var r := m.value.1.r;
      if op == 0xB6 && rex.w then Good(Movzx8(FromCode(m.value.0), r), m.rest)
      else if (op == 0x9C || op == 0x92) && (rexed || Code(r) <= 3) // AH..BH otherwise
      then Good(if op == 0x9C then Setl(r) else Setb(r), m.rest)
      else Bad
  }

  function DecodeMem(short: bool, wide: bool, op: Byte, reg: nat, a: Mem, rest: seq<Byte>): Decoded<Inst> {
    if op == 0x8B && wide then Good(Load(FromCode(reg), a), rest)
    else if op == 0x3B && wide then Good(CmpMem(FromCode(reg), a), rest)
    else if op == 0x88 then Good(Store(1, FromCode(reg), a), rest)
    else if op == 0x89 then Good(Store(if wide then 8 else if short then 2 else 4, FromCode(reg), a), rest)
    else Bad
  }

  function DecodeReg(wide: bool, op: Byte, reg: nat, rm: Reg, s: seq<Byte>): Decoded<Inst> {
    if AluWith(op).Some? then Good(AluRR(AluWith(op).value, wide, rm, FromCode(reg)), s)
    else if op == 0x89 && wide then Good(MovRR(rm, FromCode(reg)), s)
    else if op == 0x39 && wide then Good(Cmp(rm, FromCode(reg)), s)
    else if op == 0x63 && wide then Good(Movsxd(FromCode(reg), rm), s)
    else if op == 0xFF && wide && reg == 2 then Good(Call(rm), s)
    else if op == 0xD3 && ShiftWithDigit(reg).Some? then Good(ShiftCl(ShiftWithDigit(reg).value, wide, rm), s)
    else if op == 0xC1 && ShiftWithDigit(reg).Some? && |s| >= 1 then
      Good(ShiftImm(ShiftWithDigit(reg).value, wide, rm, s[0]), s[1..])
    else if op == 0x81 && AluWithDigit(reg).Some? && |s| >= 4 then
      Good(AluImm(AluWithDigit(reg).value, wide, rm, FromLe(s[..4])), s[4..])
    else if op == 0xC7 && wide && reg == 0 && |s| >= 4 then Good(MovImm32(rm, FromLe(s[..4])), s[4..])
    else Bad
  }

  function DecodeAll(s: seq<Byte>): Option<seq<Inst>>
    decreases |s|
  {
    if s == [] then Some([])
    else
      var d := Decode(s);
      if d.Bad? || |d.rest| >= |s| then None
      else
        var tail := DecodeAll(d.rest);
        if tail.None? then None else Some([d.value] + tail.value)
  }

  // The decoder inverts the encoder.

  lemma RexTrip(w: bool, r: bool, x: bool, b: bool)
    ensures ParseRex(RexByte(w, r, x, b)) == Rex(w, r, x, b)
    ensures 0x40 <= RexByte(w, r, x, b) < 0x50
  {
  }

  lemma LeTrip(v: int, rest: seq<Byte>)
    ensures -128 <= v < 128 ==> FromLe((Le(v, 1) + rest)[..1]) == v && (Le(v, 1) + rest)[1..] == rest
    ensures -0x8000_0000 <= v < 0x8000_0000 ==>
      FromLe((Le(v, 4) + rest)[..4]) == v && (Le(v, 4) + rest)[4..] == rest
    ensures -0x8000_0000_0000_0000 <= v < 0x8000_0000_0000_0000 ==>
      FromLe((Le(v, 8) + rest)[..8]) == v && (Le(v, 8) + rest)[8..] == rest
  {
    assert (Le(v, 1) + rest)[..1] == Le(v, 1) && (Le(v, 4) + rest)[..4] == Le(v, 4) && (Le(v, 8) + rest)[..8] == Le(v, 8);
    if -128 <= v < 128 { FromLeOf(v, 1); }
    if -0x8000_0000 <= v < 0x8000_0000 { FromLeOf(v, 4); }
    if -0x8000_0000_0000_0000 <= v < 0x8000_0000_0000_0000 { FromLeOf(v, 8); }
  }

  function Half(n: nat): int
    requires n > 0
  {
    if n == 1 then 128 else 256 * Half(n - 1)
  }

  lemma {:induction false} FromLeOf(v: int, n: nat)
    requires n > 0 && 0 - Half(n) <= v < Half(n)
    ensures FromLe(Le(v, n)) == v
    decreases n
  {
    if n > 1 {
      FromLeOf(v / 256, n - 1);
      assert Le(v, n)[1..] == Le(v / 256, n - 1);
    }
  }

  lemma ModRmFields(mod: nat, reg: nat, rm: nat)
    requires mod < 4
    ensures var b := ModRm(mod, reg, rm); b / 64 == mod && b / 8 % 8 == reg % 8 && b % 8 == rm % 8
  {
  }

  lemma RegOperandTrip(rex: Rex, reg: nat, rm: Reg, rest: seq<Byte>)
    requires reg < 16 && rex.r == (reg > 7) && rex.b == (Code(rm) > 7)
    ensures DecodeOperand(rex, [ModRm(3, reg, Code(rm))] + rest) == Good((reg, RegOp(rm)), rest)
  {
    hide Code, FromCode, ModRm;
    ModRmFields(3, reg, Code(rm));
    CodeParts(rm);
    assert ([ModRm(3, reg, Code(rm))] + rest)[1..] == rest;
  }

  lemma CodeParts(r: Reg)
    ensures FromCode(Code(r) % 8 + (if Code(r) > 7 then 8 else 0)) == r
  {
  }

  function DispBytes(a: Mem): seq<Byte> {
    if DispMode(a) == 0 then [] else if DispMode(a) == 1 then Le(a.disp, 1) else Le(a.disp, 4)
  }

  /** The heart: every base, every index but RSP, every scale, every 32-bit displacement. */
  lemma MemOperandTrip(rex: Rex, reg: nat, a: Mem, rest: seq<Byte>)
    requires reg < 16 && MemOk(a)
    requires rex.r == (reg > 7) && rex.b == (Code(a.base) > 7)
    requires rex.x == (a.index.Some? && Code(a.index.value) > 7)
    ensures DecodeOperand(rex, MemBytes(reg, a) + rest) == Good((reg, MemOp(a)), rest)
  {
    hide DispBytes, Code, FromCode, DecodeDisp, DispMode, ModRm;
    DispTrip(reg, a, rest);
    if NeedsSib(a) { SibTrip(rex, reg, a, rest); } else { NoSibTrip(rex, reg, a, rest); }
  }

  lemma SibTrip(rex: Rex, reg: nat, a: Mem, rest: seq<Byte>)
    requires reg < 16 && MemOk(a) && NeedsSib(a)
    requires rex.r == (reg > 7) && rex.b == (Code(a.base) > 7)
    requires rex.x == (a.index.Some? && Code(a.index.value) > 7)
    ensures DecodeOperand(rex, MemBytes(reg, a) + rest)
         == DecodeDisp(reg, DispMode(a), a.(disp := 0), DispBytes(a) + rest)
  {
    hide DispBytes, Code, FromCode, DecodeDisp, DispMode, ModRm;
    var index := if a.index.Some? then Code(a.index.value) else 4;
    var m, s := ModRm(DispMode(a), reg, 4), ModRm(a.scale, index, Code(a.base));
    ModRmFields(DispMode(a), reg, 4);
    ModRmFields(a.scale, index, Code(a.base));
    BaseFacts(a);
    assert MemBytes(reg, a) + rest == [m, s] + (DispBytes(a) + rest);
    assert ([m, s] + (DispBytes(a) + rest))[2..] == DispBytes(a) + rest;
  }

  lemma NoSibTrip(rex: Rex, reg: nat, a: Mem, rest: seq<Byte>)
    requires reg < 16 && MemOk(a) && !NeedsSib(a)
    requires rex.r == (reg > 7) && rex.b == (Code(a.base) > 7)
    ensures DecodeOperand(rex, MemBytes(reg, a) + rest)
         == DecodeDisp(reg, DispMode(a), a.(disp := 0), DispBytes(a) + rest)
  {
    hide DispBytes, Code, FromCode, DecodeDisp, DispMode, ModRm;
    var m := ModRm(DispMode(a), reg, Code(a.base));
    ModRmFields(DispMode(a), reg, Code(a.base));
    BaseFacts(a);
    assert MemBytes(reg, a) + rest == [m] + (DispBytes(a) + rest);
    assert ([m] + (DispBytes(a) + rest))[1..] == DispBytes(a) + rest;
  }

  /** Which codes the escape values of ModR/M and SIB collide with. */
  lemma BaseFacts(a: Mem)
    ensures NeedsSib(a) <==> a.index.Some? || Code(a.base) % 8 == 4
    ensures DispMode(a) == 0 ==> Code(a.base) % 8 != 5
    ensures FromCode(Code(a.base) % 8 + (if Code(a.base) > 7 then 8 else 0)) == a.base
    ensures a.index.Some? ==>
      var c := Code(a.index.value);
      FromCode(c % 8 + (if c > 7 then 8 else 0)) == a.index.value
      && (a.index.value != RSP ==> c % 8 + (if c > 7 then 8 else 0) != 4)
  {
  }

  lemma DispTrip(reg: nat, a: Mem, rest: seq<Byte>)
    requires MemOk(a)
    ensures DecodeDisp(reg, DispMode(a), a.(disp := 0), DispBytes(a) + rest) == Good((reg, MemOp(a)), rest)
  {
    hide Le;
    LeTrip(a.disp, rest);
    assert [] + rest == rest;
  }

  /** REX, opcode and the rest. */
  lemma DecodeRexed(rex: Byte, op: Byte, tail: seq<Byte>)
    requires 0x40 <= rex < 0x50
    ensures Decode([rex, op] + tail) == DecodeOp(false, true, ParseRex(rex), op, tail)
    ensures Decode([0x66, rex, op] + tail) == DecodeOp(true, true, ParseRex(rex), op, tail)
  {
    hide DecodeOp, ParseRex;
    assert ([rex, op] + tail)[1..] == [op] + tail && ([op] + tail)[1..] == tail;
    assert ([0x66, rex, op] + tail)[1..] == [rex, op] + tail;
  }

  lemma DecodePlain(op: Byte, tail: seq<Byte>)
    requires op != 0x66 && !(0x40 <= op < 0x50)
    ensures Decode([op] + tail) == DecodeOp(false, false, NO_REX, op, tail)
  {
    hide DecodeOp;
    assert ([op] + tail)[1..] == tail;
  }

  lemma TripMem(i: Inst, rest: seq<Byte>)
    requires Encodable(i) && (i.Load? || i.CmpMem? || i.Store?)
    ensures Decode(Bytes(i) + rest) == Good(i, rest)
  {
    hide DecodeOperand, MemBytes, Decode, DecodeOp, ParseRex, MemRex;
    var reg := if i.Load? then i.d else if i.CmpMem? then i.l else i.s;
    var wide := !i.Store? || i.width == 8;
    var short := i.Store? && i.width == 2;
    var op: Byte := if i.Load? then 0x8B else if i.CmpMem? then 0x3B else if i.width == 1 then 0x88 else 0x89;
    MemRexTrip(wide, reg, i.m);
    var rex := MemRex(wide, reg, i.m);
    var tail := MemBytes(Code(reg), i.m) + rest;
    DecodeRexed(rex, op, tail);
    MemOperandTrip(ParseRex(rex), Code(reg), i.m, rest);
    DecodeOpMem(short, ParseRex(rex), op, tail, Code(reg), i.m, rest);
    if short {
      assert Bytes(i) + rest == [0x66, rex, op] + tail;
    } else {
      assert Bytes(i) + rest == [rex, op] + tail;
    }
  }

  lemma MemRexTrip(wide: bool, reg: Reg, a: Mem)
    ensures 0x40 <= MemRex(wide, reg, a) < 0x50
    ensures ParseRex(MemRex(wide, reg, a))
         == Rex(wide, Code(reg) > 7, a.index.Some? && Code(a.index.value) > 7, Code(a.base) > 7)
  {
    hide RexByte, ParseRex, Code;
    RexTrip(wide, Code(reg) > 7, a.index.Some? && Code(a.index.value) > 7, Code(a.base) > 7);
  }

  lemma DecodeOpMem(short: bool, rex: Rex, op: Byte, s: seq<Byte>, reg: nat, a: Mem, rest: seq<Byte>)
    requires DecodeOperand(rex, s) == Good((reg, MemOp(a)), rest) && PlainOpcode(op)
    ensures DecodeOp(short, true, rex, op, s) == DecodeMem(short, rex.w, op, reg, a, rest)
  {
    hide DecodeOperand, DecodeMem;
  }

  /** Instructions of the form REX opcode ModR/M [immediate], both operands registers. */
  predicate TwoRegister(i: Inst) {
    i.MovRR? || i.AluRR? || i.AluImm? || i.MovImm32? || i.Movsxd? || i.ShiftCl? || i.ShiftImm? || i.Cmp? || i.Call?
  }

  /** REX.W, opcode, REG field, RM register, immediate bytes. */
  datatype RegForm = RegForm(wide: bool, op: Byte, reg: nat, rm: Reg, imm: seq<Byte>)

  function Fields(i: Inst): RegForm
    requires Encodable(i) && TwoRegister(i)
  {
    match i
    case MovRR(d, s) => RegForm(true, 0x89, Code(s), d, [])
    case AluRR(op, wide, d, s) => RegForm(wide, AluOpcode(op), Code(s), d, [])
    case AluImm(op, wide, d, imm) => RegForm(wide, 0x81, AluDigit(op), d, Le(imm, 4))
    case MovImm32(d, imm) => RegForm(true, 0xC7, 0, d, Le(imm, 4))
    case Movsxd(d, s) => RegForm(true, 0x63, Code(d), s, [])
    case ShiftCl(sh, wide, d) => RegForm(wide, 0xD3, ShiftDigit(sh), d, [])
    case ShiftImm(sh, wide, d, n) => RegForm(wide, 0xC1, ShiftDigit(sh), d, [n])
    case Cmp(l, r) => RegForm(true, 0x39, Code(r), l, [])
    case Call(r) => RegForm(true, 0xFF, 2, r, [])
  }

  lemma TripTwoRegister(i: Inst, rest: seq<Byte>)
    requires Encodable(i) && TwoRegister(i)
    ensures Decode(Bytes(i) + rest) == Good(i, rest)
  {
    hide DecodeOperand, Decode, DecodeOp, ParseRex, RexByte, ModRm, Bytes, Fields, DecodeReg, Code;
    FieldsBytes(i);
    FieldsDecode(i, rest);
    TripFields(Fields(i), rest);
    var f := Fields(i);
    assert Bytes(i) + rest
        == [RegRex(f.wide, f.reg, f.rm), f.op] + ([ModRm(3, f.reg, Code(f.rm))] + (f.imm + rest));
  }

  predicate PlainOpcode(op: Byte) {
    !(0x50 <= op < 0x60) && !(0xB8 <= op < 0xC0) && op != 0xC3 && op != 0x76 && op != 0xEB && op != 0x0F
  }

  lemma TripFields(f: RegForm, rest: seq<Byte>)
    requires f.reg < 16 && PlainOpcode(f.op)
    ensures Decode([RegRex(f.wide, f.reg, f.rm), f.op] + ([ModRm(3, f.reg, Code(f.rm))] + (f.imm + rest)))
         == DecodeReg(f.wide, f.op, f.reg, f.rm, f.imm + rest)
  {
    hide DecodeOperand, Decode, DecodeOp, ParseRex, RexByte, ModRm, DecodeReg, Code;
    RexTrip(f.wide, f.reg > 7, false, Code(f.rm) > 7);
    var rex, s := RegRex(f.wide, f.reg, f.rm), [ModRm(3, f.reg, Code(f.rm))] + (f.imm + rest);
    DecodeRexed(rex, f.op, s);
    RegOperandTrip(ParseRex(rex), f.reg, f.rm, f.imm + rest);
    DecodeOpRegister(ParseRex(rex), f.op, s, f.reg, f.rm, f.imm + rest);
  }

  lemma DecodeOpRegister(rex: Rex, op: Byte, s: seq<Byte>, reg: nat, rm: Reg, rest: seq<Byte>)
    requires DecodeOperand(rex, s) == Good((reg, RegOp(rm)), rest)
    requires PlainOpcode(op)
    ensures DecodeOp(false, true, rex, op, s) == DecodeReg(rex.w, op, reg, rm, rest)
  {
    hide DecodeOperand, DecodeReg;
  }

  lemma FieldsBytes(i: Inst)
    requires Encodable(i) && TwoRegister(i)
    ensures var f := Fields(i);
      && Bytes(i) == [RegRex(f.wide, f.reg, f.rm), f.op, ModRm(3, f.reg, Code(f.rm))] + f.imm
      && f.reg < 16 && PlainOpcode(f.op)
  {
    hide RexByte, ModRm, Le, Code;
  }

  lemma FieldsDecode(i: Inst, rest: seq<Byte>)
    requires Encodable(i) && TwoRegister(i)
    ensures var f := Fields(i); DecodeReg(f.wide, f.op, f.reg, f.rm, f.imm + rest) == Good(i, rest)
  {
    hide Le, Code, FromLe, FromCode;
    if i.AluImm? || i.MovImm32? { LeTrip(i.imm, rest); }
    assert [] + rest == rest;
    if i.ShiftImm? { assert ([i.n as Byte] + rest)[1..] == rest; }
  }

  lemma TripByteSet(i: Inst, rest: seq<Byte>)
    requires i.Setl? || i.Setb?
    ensures Decode(Bytes(i) + rest) == Good(i, rest)
  {
    hide DecodeOperand, Decode, ParseRex, RexByte, ModRm;
    var op: Byte := if i.Setl? then 0x9C else 0x92;
    var rex := RegRex(false, 0, i.d);
    RexTrip(false, false, false, Code(i.d) > 7);
    var operand := [ModRm(3, 0, Code(i.d))] + rest;
    var tail := [op] + operand;
    assert tail[1..] == operand;
    if Code(i.d) > 3 {
      DecodeRexed(rex, 0x0F, tail);
      RegOperandTrip(ParseRex(rex), 0, i.d, rest);
      assert Bytes(i) + rest == [rex, 0x0F] + tail;
    } else {
      DecodePlain(0x0F, tail);
      RegOperandTrip(NO_REX, 0, i.d, rest);
      assert Bytes(i) + rest == [0x0F] + tail;
    }
  }

  lemma TripByteExtend(i: Inst, rest: seq<Byte>)
    requires i.Movzx8?
    ensures Decode(Bytes(i) + rest) == Good(i, rest)
  {
    hide DecodeOperand, Decode, ParseRex, RexByte, ModRm;
    var rex := RegRex(true, Code(i.d), i.s);
    RexTrip(true, Code(i.d) > 7, false, Code(i.s) > 7);
    var operand := [ModRm(3, Code(i.d), Code(i.s))] + rest;
    var tail := [0xB6] + operand;
    assert tail[1..] == operand;
    DecodeRexed(rex, 0x0F, tail);
    RegOperandTrip(ParseRex(rex), Code(i.d), i.s, rest);
    assert Bytes(i) + rest == [rex, 0x0F] + tail;
  }

  lemma TripPushPop(i: Inst, rest: seq<Byte>)
    requires i.Push? || i.Pop?
    ensures Decode(Bytes(i) + rest) == Good(i, rest)
  {
    hide Decode, Code, FromCode;
    var op: Byte := (if i.Push? then 0x50 else 0x58) + Code(i.r) % 8;
    CodeParts(i.r);
    if Code(i.r) > 7 {
      DecodeRexed(0x41, op, rest);
      assert Bytes(i) + rest == [0x41, op] + rest;
    } else {
      DecodePlain(op, rest);
      assert Bytes(i) + rest == [op] + rest;
    }
  }

  lemma TripJump(i: Inst, rest: seq<Byte>)
    requires Encodable(i) && (i.Jbe8? || i.Jmp8?)
    ensures Decode(Bytes(i) + rest) == Good(i, rest)
  {
    hide Decode, Le, FromLe, DecodeOperand, DecodeTwoByte, DecodeMem, DecodeReg, Code, FromCode;
    var op: Byte := if i.Jbe8? then 0x76 else 0xEB;
    assert Bytes(i) == [op] + Le(i.rel, 1);
    hide Bytes;
    assert [op] + Le(i.rel, 1) + rest == [op] + (Le(i.rel, 1) + rest);
    LeTrip(i.rel, rest);
    DecodePlain(op, Le(i.rel, 1) + rest);
  }

  lemma TripImm64(i: Inst, rest: seq<Byte>)
    requires Encodable(i) && i.MovImm64?
    ensures Decode(Bytes(i) + rest) == Good(i, rest)
  {
    hide Decode, Le, FromLe, ParseRex, RexByte;
    var rex, op: Byte, tail := RegRex(true, 0, i.d), 0xB8 + Code(i.d) % 8, Le(i.imm, 8) + rest;
    RexTrip(true, false, false, Code(i.d) > 7);
    CodeParts(i.d);
    LeTrip(i.imm, rest);
    DecodeRexed(rex, op, tail);
    assert Bytes(i) + rest == [rex, op] + tail;
  }

  lemma RetBytes()
    ensures Bytes(Ret) == [0xC3]
  {
  }

  /** Any encodable instruction, whatever bytes follow it. */
  lemma RoundTrip(i: Inst, rest: seq<Byte>)
    requires Encodable(i)
    ensures Decode(Bytes(i) + rest) == Good(i, rest)
  {
    hide Decode, Bytes;
    if i.Load? || i.CmpMem? || i.Store? {
      TripMem(i, rest);
    } else if TwoRegister(i) {
      TripTwoRegister(i, rest);
    } else if i.Setl? || i.Setb? {
      TripByteSet(i, rest);
    } else if i.Movzx8? {
      TripByteExtend(i, rest);
    } else if i.Push? || i.Pop? {
      TripPushPop(i, rest);
    } else if i.MovImm64? {
      TripImm64(i, rest);
    } else if i.Ret? {
      RetBytes();
      DecodePlain(0xC3, rest);
    } else {
      TripJump(i, rest);
    }
  }

  /** Decoding the bytes of an instruction list recovers the list. */
  lemma {:induction false} RoundTripAll(code: seq<Inst>)
    requires forall i <- code :: Encodable(i)
    ensures DecodeAll(BytesAll(code)) == Some(code)
  {
    hide Decode, Bytes, Encodable;
    if code != [] {
      RoundTripAll(code[1..]);
      RoundTrip(code[0], BytesAll(code[1..]));
      BytesSize(code[0]);
      assert Size(code[0]) > 0;
      assert [code[0]] + code[1..] == code;
    }
  }

  lemma {:induction false} BytesAllSize(code: seq<Inst>)
    requires forall i <- code :: Encodable(i)
    ensures |BytesAll(code)| == SizeAll(code)
  {
    hide Bytes, Size;
    if code != [] {
      BytesSize(code[0]);
      BytesAllSize(code[1..]);
    }
  }
}
