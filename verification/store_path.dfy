/** Which stores a compiled block does itself, and which of those leave RAM. */
module StorePath {
  import opened Words
  import opened Host
  import opened Allocator
  import opened Emit
  import opened Meaning
  import opened Stores
  import opened StoreEffect
  import G = Guest

  // ---- a run that has stopped ----

  lemma StepStopped(i: Inst, m: Machine)
    requires !m.cpu.ok
    ensures !Step(i, m).cpu.ok
  {
  }

  lemma {:induction false} RunStopped(code: seq<Inst>, m: Machine)
    requires !m.cpu.ok
    ensures !Run(code, m).cpu.ok
    decreases |code|
  {
    hide Step, Below;
    if code != [] {
      StepStopped(code[0], m);
      RunStopped(code[1..], m);
      RunStopped(code[1..], Step(code[0], m));
      if (code[0].Jbe8? || code[0].Jmp8?) && Skip(code[1..], code[0].rel).Some? {
        RunStopped(Skip(code[1..], code[0].rel).value, m);
      }
    }
  }

  lemma CallStops(a: seq<Inst>, r: Reg, b: seq<Inst>, m: Machine)
    requires Straight(a)
    ensures !Run(a + ([Call(r)] + b), m).cpu.ok
  {
    hide Straight;
    RunStraight(a, [Call(r)] + b, m);
    var m' := Run(a, m);
    assert ([Call(r)] + b)[1..] == b;
    assert !Step(Call(r), m').cpu.ok;
    RunStopped(b, Step(Call(r), m'));
  }

  /** The slow path, whatever follows it, leaves for code that is not part of this model. */
  lemma SlowStops(i: G.Inst, s2: Reg, skip: int, rest: seq<Inst>, m: Machine)
    ensures !Run(StoreSlow(i, s2, skip) + rest, m).cpu.ok
  {
    hide Run, Step;
    var slow := StoreSlow(i, s2, skip);
    assert slow[8] == Call(RAX);
    assert Straight(slow[..8]);
    assert slow + rest == slow[..8] + ([Call(RAX)] + (slow[9..] + rest));
    CallStops(slow[..8], RAX, slow[9..] + rest, m);
  }

  // ---- the choice ----

  lemma JumpNotTaken(j: Inst, rest: seq<Inst>, m: Machine)
    requires j.Jbe8? && m.cpu.flags.Compared? && Below(m.cpu.flags.r, m.cpu.flags.l)
    ensures Run([j] + rest, m) == Run(rest, m)
  {
    hide Below;
    assert ([j] + rest)[1..] == rest;
  }

  lemma BodyCalls(i: G.Inst, s1: Reg, s2: Reg, f: Frame, m: Machine)
    requires Framed(f, m) && s1 != RCX
    requires Below(MemSizeOf(f), G.StoreOffset(Get(m, s1), i.imm))
    ensures !Run(StoreBody(i, s1, s2), m).cpu.ok
  {
    hide StoreFast, StoreSlow, StoreCheck, Framed, G.StoreOffset, Below, SameButScratch, Run, Straight, SizeAll;
    var fast := StoreFast(i, s2);
    var slow := StoreSlow(i, s2, SizeAll(fast));
    var jbe := Jbe8(SizeAll(slow));
    CheckRuns(i, s1, f, m);
    CheckStraight(i, s1);
    RunStraight(StoreCheck(i, s1), [jbe] + (slow + fast), m);
    JumpNotTaken(jbe, slow + fast, Run(StoreCheck(i, s1), m));
    SlowStops(i, s2, SizeAll(fast), fast, Run(StoreCheck(i, s1), m));
    assert StoreBody(i, s1, s2) == StoreCheck(i, s1) + ([jbe] + (slow + fast));
  }

  /** The address a compiled store starts from: with x0 as base it is what RDI happens to hold. */
  function Base(a: Alloc, i: G.Inst, m: Machine, g: G.State): Word
    requires Coherent(a) && G.Valid(g) && G.Decoded(i)
  {
    if i.rs1 == 0 then Get(Run(StoreOperands(a, i).code, m), RDI) else g.x[i.rs1]
  }

  function FastOffset(a: Alloc, i: G.Inst, m: Machine, g: G.State): Word
    requires Coherent(a) && G.Valid(g) && G.Decoded(i)
  {
    G.StoreOffset(Base(a, i, m, g), i.imm)
  }

  lemma OperandsMapped(a: Alloc, i: G.Inst)
    requires Coherent(a) && G.Decoded(i)
    ensures var o := StoreOperands(a, i).a;
      Coherent(o) && o.v[0].host == NoHost && (i.rs1 != 0 ==> o.v[i.rs1].mapped) && (i.rs2 != 0 ==> o.v[i.rs2].mapped)
  {
  }

  /**
   * A compiled store stays in its block exactly when its offset is at most the size of RAM, that size
   * itself included; then it writes all its bytes from that offset on, in RAM or not. Every other
   * store calls device code.
   */
  lemma StoreTaken(a: Alloc, i: G.Inst, f: Frame, m: Machine, g: G.State)
    requires Holds(a, f, m, g) && G.Decoded(i) && G.IsStore(i.op)
    ensures
      var r, off := EmitInst(a, i), FastOffset(a, i, m, g);
      var end := Run(r.code, m);
      (end.cpu.ok <==> !Below(MemSizeOf(f), off))
      && (end.cpu.ok ==> Holds(r.a, f, end, g.(ram := G.StoreBytes(g.ram, off, G.StoreWidth(i.op), G.Reg(g, i.rs2)))))
  {
    hide Holds, StoreOperands, Run, Coherent, StoreBody, StoreFast, StoreCheck, G.StoreBytes, G.StoreOffset, G.StoreWidth;
    hide Below, Base;
    HoldsCoherent(a, f, m, g);
    var o := StoreOperands(a, i);
    StoreOperandsHold(a, i, f, m, g);
    OperandsMapped(a, i);
    var m1 := Run(o.code, m);
    HoldsCoherent(o.a, f, m1, g);
    var s1, s2 := Seen(o.a.v[i.rs1].host), Seen(o.a.v[i.rs2].host);
    SourceHolds(i.rs1, o.a, f, m1, g);
    SourceHolds(i.rs2, o.a, f, m1, g);
    BaseIs(a, i, m, g);
    RunStraight(o.code, StoreBody(i, s1, s2), m);
    if Below(MemSizeOf(f), G.StoreOffset(Get(m1, s1), i.imm)) {
      BodyCalls(i, s1, s2, f, m1);
    } else {
      BodyRuns(i, s1, s2, f, m1);
      CheckRuns(i, s1, f, m1);
      var m2 := Run(StoreCheck(i, s1), m1);
      RamPointer(f, m1, m2);
      FastRuns(i, s2, m2);
      var m3 := Run(StoreFast(i, s2), m2);
      HoldsRam(o.a, f, m1, g);
      ScratchHolds(o.a, f, m1, m3, g);
      FramedOk(o.a, f, m3, g.(ram := m3.ram));
    }
  }

  lemma FramedOk(a: Alloc, f: Frame, m: Machine, g: G.State)
    requires Holds(a, f, m, g)
    ensures m.cpu.ok
  {
  }

  lemma BaseIs(a: Alloc, i: G.Inst, m: Machine, g: G.State)
    requires Coherent(a) && G.Valid(g) && G.Decoded(i)
    requires var o := StoreOperands(a, i); |o.a.v| == 32 && o.a.v[0].host == NoHost
    requires var o := StoreOperands(a, i);
      i.rs1 != 0 ==> Get(Run(o.code, m), Seen(o.a.v[i.rs1].host)) == G.Reg(g, i.rs1)
    ensures var o := StoreOperands(a, i); Base(a, i, m, g) == Get(Run(o.code, m), Seen(o.a.v[i.rs1].host))
  {
    hide StoreOperands, Run, Coherent;
  }

  // ---- those that leave RAM ----

  /** A store of `width` bytes leaves RAM exactly when some byte of it is not below the size. */
  lemma {:induction false} LeavesRam(off: Word, width: nat, memsize: Word)
    requires width <= 8
    ensures !G.BytesInRam(off, width, memsize) <==> exists k: nat :: k < width && !Below(Further(off, k), memsize)
    decreases width
  {
    hide Below, Plus, Further;
    if width > 0 {
      FurtherNone(off);
      LeavesRam(Plus(off, ONE), width - 1, memsize);
      if !Below(off, memsize) {
        assert !Below(Further(off, 0), memsize);
      } else if k: nat :| k < width && !Below(Further(off, k), memsize) {
        FurtherFirst(off, k - 1);
        assert !Below(Further(Plus(off, ONE), k - 1), memsize);
      }
      if k: nat :| k < width - 1 && !Below(Further(Plus(off, ONE), k), memsize) {
        FurtherFirst(off, k);
        assert !Below(Further(off, k + 1), memsize);
      }
    }
  }

  /** A store the block does itself writes past RAM when one of its bytes falls on the size of RAM. */
  lemma Straddles(a: Alloc, i: G.Inst, f: Frame, m: Machine, g: G.State, k: nat)
    requires Holds(a, f, m, g) && G.Decoded(i) && G.IsStore(i.op) && !Below(MemSizeOf(f), FastOffset(a, i, m, g))
    requires k < G.StoreWidth(i.op) && Further(FastOffset(a, i, m, g), k) == MemSizeOf(f)
    ensures Run(EmitInst(a, i).code, m).cpu.ok
    ensures !G.BytesInRam(FastOffset(a, i, m, g), G.StoreWidth(i.op), MemSizeOf(f))
  {
    hide Holds, Run, EmitInst, FastOffset, MemSizeOf, G.BytesInRam;
    HoldsCoherent(a, f, m, g);
    StoreTaken(a, i, f, m, g);
    assert !Below(Further(FastOffset(a, i, m, g), k), MemSizeOf(f));
    LeavesRam(FastOffset(a, i, m, g), G.StoreWidth(i.op), MemSizeOf(f));
  }

  /** At work: a byte stored at the offset that is the size of RAM itself is stored by the block. */
  lemma OnePast(a: Alloc, i: G.Inst, f: Frame, m: Machine, g: G.State)
    requires Holds(a, f, m, g) && G.Decoded(i) && i.op == G.SB && FastOffset(a, i, m, g) == MemSizeOf(f)
    ensures Run(EmitInst(a, i).code, m).cpu.ok && !G.BytesInRam(FastOffset(a, i, m, g), 1, MemSizeOf(f))
  {
    hide Holds, Run, EmitInst, FastOffset, MemSizeOf;
    HoldsCoherent(a, f, m, g);
    FurtherNone(MemSizeOf(f));
    Straddles(a, i, f, m, g, 0);
  }
}
