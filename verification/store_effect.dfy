/** Which bytes a store leaves where, as the interpreter executes it. */
module StoreEffect {
  import opened Words
  import opened Guest

  /** The offset `k` bytes on. */
  function Further(off: Word, k: nat): Word
    requires k <= 8
  {
    W(Up(off.bits, k))
  }

  function Up(x: bv64, k: nat): bv64
    requires k <= 8
  {
    match k
    case 0 => x
    case 1 => x + 1
    case 2 => x + 2
    case 3 => x + 3
    case 4 => x + 4
    case 5 => x + 5
    case 6 => x + 6
    case 7 => x + 7
    case 8 => x + 8
  }

  lemma UpStep(x: bv64, k: nat)
    requires k < 8
    ensures Up(x + 1, k) == Up(x, k + 1)
  {
    match k
    case 0 => case 1 => case 2 => case 3 => case 4 => case 5 => case 6 => case 7 =>
  }

  lemma UpMoves(x: bv64, k: nat)
    requires 0 < k < 8
    ensures Up(x, k) != x
  {
    match k
    case 1 => case 2 => case 3 => case 4 => case 5 => case 6 => case 7 =>
  }

  lemma FurtherFirst(off: Word, k: nat)
    requires k < 8
    ensures Further(Plus(off, ONE), k) == Further(off, k + 1)
  {
    hide Up;
    UpStep(off.bits, k);
  }

  /** Bits 8k to 8k+7. */
  function ByteOf(v: bv64, k: nat): bv8
    requires k < 8
  {
    match k
    case 0 => (v & 0xFF) as bv8
    case 1 => ((v >> 8) & 0xFF) as bv8
    case 2 => ((v >> 16) & 0xFF) as bv8
    case 3 => ((v >> 24) & 0xFF) as bv8
    case 4 => ((v >> 32) & 0xFF) as bv8
    case 5 => ((v >> 40) & 0xFF) as bv8
    case 6 => ((v >> 48) & 0xFF) as bv8
    case _ => ((v >> 56) & 0xFF) as bv8
  }

  lemma ByteShifted(v: bv64, k: nat)
    requires k < 7
    ensures ByteOf(Down(v), k) == ByteOf(v, k + 1)
  {
    match k
    case 0 => case 1 => case 2 => case 3 => case 4 => case 5 => case 6 =>
  }

  lemma NotBack(off: Word, k: nat)
    requires 0 < k < 8
    ensures Further(off, k) != off
  {
    hide Up;
    UpMoves(off.bits, k);
  }

  lemma FurtherNone(off: Word)
    ensures Further(off, 0) == off
  {
  }

  /** The store of the lowest byte, and what is left to store after it. */
  function FirstStored(ram: Ram, off: Word, v: Word): Ram { ram[off := ByteOf(v.bits, 0)] }

  function Rest(v: Word): Word { W(Down(v.bits)) }

  lemma StoreStep(ram: Ram, off: Word, width: nat, v: Word)
    requires width > 0
    ensures StoreBytes(ram, off, width, v) == StoreBytes(FirstStored(ram, off, v), Plus(off, ONE), width - 1, Rest(v))
  {
    hide Plus, ByteOf, LowestByte, Down;
    FirstByte(v.bits);
  }

  lemma FirstByte(v: bv64)
    ensures ByteOf(v, 0) == LowestByte(v)
  {
  }

  /** After a store of up to eight bytes byte `k` of the value is at the offset `k` further on. */
  lemma {:induction false} BytePlaced(ram: Ram, off: Word, width: nat, v: Word, k: nat)
    requires k < width <= 8
    ensures var r := StoreBytes(ram, off, width, v);
      Further(off, k) in r && r[Further(off, k)] == ByteOf(v.bits, k)
    decreases width
  {
    hide Plus, ByteOf, StoreBytes, Rest, Further;
    StoreStep(ram, off, width, v);
    FurtherNone(off);
    var first := FirstStored(ram, off, v);
    if k == 0 {
      forall j: nat | j < width - 1 ensures Further(Plus(off, ONE), j) != off {
        FurtherFirst(off, j);
        NotBack(off, j + 1);
      }
      ByteKept(first, Plus(off, ONE), width - 1, Rest(v), off);
    } else {
      BytePlaced(first, Plus(off, ONE), width - 1, Rest(v), k - 1);
      FurtherFirst(off, k - 1);
      RestByte(v, k - 1);
    }
  }

  lemma RestByte(v: Word, k: nat)
    requires k < 7
    ensures ByteOf(Rest(v).bits, k) == ByteOf(v.bits, k + 1)
  {
    hide ByteOf, Down;
    ByteShifted(v.bits, k);
  }

  /** Every offset the store does not reach keeps its byte. */
  lemma {:induction false} ByteKept(ram: Ram, off: Word, width: nat, v: Word, at: Word)
    requires width <= 8 && forall j: nat :: j < width ==> Further(off, j) != at
    ensures var r := StoreBytes(ram, off, width, v);
      (at in r <==> at in ram) && (at in ram ==> r[at] == ram[at])
    decreases width
  {
    if width > 0 {
      hide Plus, ByteOf, StoreBytes, Rest, Further;
      StoreStep(ram, off, width, v);
      FurtherNone(off);
      forall j: nat | j < width - 1 ensures Further(Plus(off, ONE), j) != at {
        FurtherFirst(off, j);
        assert Further(off, j + 1) != at;
      }
      ByteKept(FirstStored(ram, off, v), Plus(off, ONE), width - 1, Rest(v), at);
    }
  }

  /** Where a store goes: the address less the start of RAM. */
  function Target(g: State, i: Inst): Word
    requires Valid(g) && Decoded(i)
  {
    W(From(if i.rs1 == 0 then 0 else g.x[i.rs1].bits, ImmWord(i.imm).bits))
  }

  function From(base: bv64, imm: bv64): bv64 { base + imm - 0x8000_0000 }

  function BytesOf(op: Op): nat
    requires IsStore(op)
  {
    match op case SB => 1 case SH => 2 case SW => 4 case SD => 8
  }

  lemma TargetIs(g: State, i: Inst)
    requires Valid(g) && Decoded(i)
    ensures StoreOffset(Reg(g, i.rs1), i.imm) == Target(g, i)
  {
    hide ImmWord, Plus, Minus, From, Difference, Sum;
    HalfGigabyte();
    TwoHalves(Reg(g, i.rs1).bits, ImmWord(i.imm).bits);
    TwoSteps(Reg(g, i.rs1).bits, ImmWord(i.imm).bits);
  }

  lemma TwoSteps(x: bv64, y: bv64)
    ensures Minus(Minus(Plus(W(x), W(y)), W(0x4000_0000)), W(0x4000_0000))
      == W(Difference(Difference(Sum(x, y), 0x4000_0000), 0x4000_0000))
  {
    hide Difference, Sum;
  }

  lemma TwoHalves(x: bv64, y: bv64)
    ensures Difference(Difference(Sum(x, y), 0x4000_0000), 0x4000_0000) == From(x, y)
  {
    Halves(Sum(x, y));
  }

  lemma Halves(z: bv64)
    ensures Difference(Difference(z, 0x4000_0000), 0x4000_0000) == z - 0x8000_0000
  {
  }

  /** SB, SH, SW and SD leave the low one, two, four or eight bytes of rs2 in RAM, the lowest first,
      and every other byte and every register as it was. */
  lemma StoreWrites(g: State, i: Inst)
    requires Valid(g) && Decoded(i) && IsStore(i.op)
    ensures Exec(g, i).x == g.x
    ensures forall k: nat :: k < BytesOf(i.op) ==>
      Further(Target(g, i), k) in Exec(g, i).ram
      && Exec(g, i).ram[Further(Target(g, i), k)] == ByteOf(if i.rs2 == 0 then 0 else g.x[i.rs2].bits, k)
    ensures forall at: Word :: (forall k: nat :: k < BytesOf(i.op) ==> Further(Target(g, i), k) != at) ==>
      (at in Exec(g, i).ram <==> at in g.ram) && (at in g.ram ==> Exec(g, i).ram[at] == g.ram[at])
  {
    hide StoreBytes, StoreOffset, Target, ByteOf;
    TargetIs(g, i);
    var off, width, v := Target(g, i), StoreWidth(i.op), Reg(g, i.rs2);
    assert width == BytesOf(i.op);
    assert Exec(g, i).ram == StoreBytes(g.ram, off, width, v);
    forall k: nat | k < width
      ensures Further(off, k) in Exec(g, i).ram && Exec(g, i).ram[Further(off, k)] == ByteOf(v.bits, k)
    {
      BytePlaced(g.ram, off, width, v, k);
    }
    forall at: Word | forall k: nat :: k < width ==> Further(off, k) != at
      ensures (at in Exec(g, i).ram <==> at in g.ram) && (at in g.ram ==> Exec(g, i).ram[at] == g.ram[at])
    {
      ByteKept(g.ram, off, width, v, at);
    }
  }

  /** At work: SW of 0x11223344 through x1 at the start of RAM leaves 44 33 22 11. */
  lemma WordStored(g: State)
    requires Valid(g) && g.x[1] == W(0x8000_0000) && g.x[2] == W(0x1122_3344)
    ensures var r := Exec(g, Inst(SW, 0, 1, 2, 0)).ram;
      W(0) in r && r[W(0)] == 0x44 && W(1) in r && r[W(1)] == 0x33
      && W(2) in r && r[W(2)] == 0x22 && W(3) in r && r[W(3)] == 0x11
  {
    var i := Inst(SW, 0, 1, 2, 0);
    StoreWrites(g, i);
    hide Exec;
    var off := Target(g, i);
    assert off == W(0);
    assert Further(off, 0) == W(0) && Further(off, 1) == W(1) && Further(off, 2) == W(2) && Further(off, 3) == W(3);
    assert ByteOf(0x1122_3344, 0) == 0x44 && ByteOf(0x1122_3344, 1) == 0x33;
    assert ByteOf(0x1122_3344, 2) == 0x22 && ByteOf(0x1122_3344, 3) == 0x11;
  }
}
