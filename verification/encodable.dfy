/** Everything the emitters append can be encoded: displacements, immediates and short jumps fit their
    fields. So the bytes of a finished block fit the buffer and decode to the block's instructions, which
    is what carries the meaning theorem down to bytes. */
module EmittedBytes {
  import opened Wrappers
  import opened Host
  import opened Allocator
  import opened Emit
  import opened Encode
  import opened Templates
  import opened Sizes
  import G = Guest

  ghost predicate AllEncodable(code: seq<Inst>) {
    forall x <- code :: Encodable(x)
  }

  lemma EncodableConcat(a: seq<Inst>, b: seq<Inst>)
    requires AllEncodable(a) && AllEncodable(b)
    ensures AllEncodable(a + b)
  {
  }

  lemma HomeEncodable(r: nat, x: Reg)
    requires r < 32
    ensures AllEncodable([Load(x, Home(r))]) && AllEncodable([Store(8, x, Home(r))])
  {
  }

  lemma AllocEncodable(a: Alloc, r: nat, lock: Lock)
    requires Coherent(a) && r < 32
    ensures AllEncodable(AllocReg(a, r, lock).code)
  {
    hide Allocated, Straight, AllEncodable;
    NothingEncodable();
    if r != 0 && !a.v[r].mapped {
      var k := FreeFrom(a.h, lock, 0);
      if k < POOL {
        TakeCoherent(a, r, k);
        HomeEncodable(r, Pool(k));
      } else {
        var k := VictimFrom(a.h, lock, 0, POOL);
        VictimUsed(a.h, lock);
        SpillCoherent(a, k);
        ClaimCoherent(Spill(a, k).a, r, k);
        hide Coherent;
        HomeEncodable(r, Pool(k));
        HomeEncodable(a.h[k].vreg, Pool(k));
        EncodableConcat(Spill(a, k).code, Claim(Spill(a, k).a, r, k).code);
      }
    }
  }

  lemma NothingEncodable()
    ensures AllEncodable([])
  {
  }

  lemma LocalEncodable(code: seq<Inst>, i: G.Inst, d: Reg, s1: Reg, s2: Reg)
    requires G.Decoded(i) && !G.IsStore(i.op)
    ensures AllEncodable(Body(i, d, s1, s2))
  {
    if IsCompare(i.op) {
      CompareEncodable(i, d, s1, s2);
    } else if G.IsImm(i.op) {
      ImmediateEncodable(i, d, s1);
    } else if IsAddSub(i.op) {
      AddSubEncodable(i, d, s1, s2);
    } else {
      hide AddSubBody, CompareBody, ImmediateBody;
      BinaryEncodable(i, d, s1, s2);
    }
  }

  lemma CompareEncodable(i: G.Inst, d: Reg, s1: Reg, s2: Reg)
    requires G.Decoded(i)
    ensures AllEncodable(CompareBody(i, d, s1, s2))
  {
    var setcc := if Signed(i.op) then Setl(d) else Setb(d);
    ComparePieces(i, d, s1, s2, setcc);
    ComparePieces(i, d, s1, RCX, setcc);
    hide Signed, G.IsImm, ZeroIf, Compare, AllEncodable;
    EncodableConcat(ZeroIf(i.rs1 == 0, s1), ZeroIf(i.rs2 == 0, s2));
    EncodableConcat(ZeroIf(i.rs1 == 0, s1) + ZeroIf(i.rs2 == 0, s2), Compare(s1, s2, setcc, d));
    EncodableConcat(ZeroIf(i.rs1 == 0, s1), [MovImm64(RCX, i.imm)]);
    EncodableConcat(ZeroIf(i.rs1 == 0, s1) + [MovImm64(RCX, i.imm)], Compare(s1, RCX, setcc, d));
  }

  lemma ZeroIfEncodable(zero: bool, r: Reg)
    ensures AllEncodable(ZeroIf(zero, r))
  {
  }

  lemma CountEncodable(imm: int)
    requires -2048 <= imm < 2048
    ensures AllEncodable([MovImm64(RCX, imm)])
  {
  }

  lemma SetEncodable(s1: Reg, s2: Reg, setcc: Inst, d: Reg)
    requires setcc == Setl(d) || setcc == Setb(d)
    ensures AllEncodable(Compare(s1, s2, setcc, d))
  {
  }

  lemma ComparePieces(i: G.Inst, d: Reg, s1: Reg, s2: Reg, setcc: Inst)
    requires G.Decoded(i) && (setcc == Setl(d) || setcc == Setb(d))
    ensures AllEncodable(ZeroIf(i.rs1 == 0, s1)) && AllEncodable(ZeroIf(i.rs2 == 0, s2))
    ensures AllEncodable([MovImm64(RCX, i.imm)]) && AllEncodable(Compare(s1, s2, setcc, d))
  {
    ZeroIfEncodable(i.rs1 == 0, s1);
    ZeroIfEncodable(i.rs2 == 0, s2);
    CountEncodable(i.imm);
    SetEncodable(s1, s2, setcc, d);
    hide AllEncodable, ZeroIf, Compare;
  }

  lemma ImmediateEncodable(i: G.Inst, d: Reg, s1: Reg)
    requires G.Decoded(i)
    ensures AllEncodable(ImmediateBody(i, d, s1))
  {
    hide G.IsShiftImm, G.IsShiftImmW, AluOf, ShiftOf, Narrow;
    assert Encodable(ImmediateOp(i, d));
    hide ImmediateOp;
    assert AllEncodable(Copy(i.rd == i.rs1, d, s1));
    EncodableConcat(Copy(i.rd == i.rs1, d, s1), [ImmediateOp(i, d)]);
  }

  lemma AddSubEncodable(i: G.Inst, d: Reg, s1: Reg, s2: Reg)
    ensures AllEncodable(AddSubBody(i, d, s1, s2))
  {
    hide AluOf, Narrow, Addition, Subtraction, AllEncodable;
    var wide := !Narrow(i.op);
    AdditionEncodable(i, wide, d, s1, s2);
    SextEncodable(wide, d);
    EncodableConcat(if AluOf(i.op) == Add then Addition(i, wide, d, s1, s2) else Subtraction(i, wide, d, s1, s2),
                    if wide then [] else [Movsxd(d, d)]);
  }

  lemma AdditionEncodable(i: G.Inst, wide: bool, d: Reg, s1: Reg, s2: Reg)
    ensures AllEncodable(Addition(i, wide, d, s1, s2)) && AllEncodable(Subtraction(i, wide, d, s1, s2))
  {
  }

  lemma SextEncodable(wide: bool, d: Reg)
    ensures AllEncodable(if wide then [] else [Movsxd(d, d)])
  {
  }

  lemma BinaryEncodable(i: G.Inst, d: Reg, s1: Reg, s2: Reg)
    ensures AllEncodable(BitwiseBody(i, d, s1, s2))
    ensures AllEncodable(ShiftRegister(i, ShiftOf(i.op), !Narrow(i.op), d, s1, s2))
  {
    hide AluOf, ShiftOf, Narrow, Second;
    assert AllEncodable(Settle(i, d, s1, s2)) && AllEncodable(ShiftBy(ShiftOf(i.op), !Narrow(i.op), d, Second(i, s2)));
    hide Settle, ShiftBy;
    EncodableConcat(Settle(i, d, s1, s2), [AluRR(AluOf(i.op), true, d, Second(i, s2))]);
    EncodableConcat(Settle(i, d, s1, s2), ShiftBy(ShiftOf(i.op), !Narrow(i.op), d, Second(i, s2)));
  }

  lemma TemplateEncodable(i: G.Inst, d: Reg, s1: Reg, s2: Reg)
    requires G.Decoded(i) && !G.IsStore(i.op)
    ensures AllEncodable(Template(i, d, s1, s2))
  {
    hide Body, Shortcuts, G.IsImm;
    LocalEncodable([], i, d, s1, s2);
  }

  lemma StoreBodyEncodable(i: G.Inst, s1: Reg, s2: Reg)
    requires G.Decoded(i)
    ensures AllEncodable(StoreBody(i, s1, s2))
  {
    var fast := StoreFast(i, s2);
    var slow := StoreSlow(i, s2, SizeAll(fast));
    FastSize(i, s2);
    SlowSize(i, s2, SizeAll(fast));
    hide SizeAll;
    assert AllEncodable(fast) && AllEncodable(slow) && AllEncodable(StoreCheck(i, s1)) && AllEncodable([Jbe8(SizeAll(slow))]);
    hide StoreFast, StoreSlow, StoreCheck, AllEncodable;
    EncodableConcat(StoreCheck(i, s1), [Jbe8(SizeAll(slow))]);
    EncodableConcat(StoreCheck(i, s1) + [Jbe8(SizeAll(slow))], slow);
    EncodableConcat(StoreCheck(i, s1) + [Jbe8(SizeAll(slow))] + slow, fast);
  }

  lemma OperandsEncodable(a: Alloc, i: G.Inst)
    requires Coherent(a) && G.Decoded(i)
    ensures AllEncodable(StoreOperands(a, i).code)
    ensures i.rd != 0 ==> AllEncodable(Operands(a, i).code)
  {
    hide AllocReg, Allocated, Straight, AllEncodable;
    CoherentShape(a);
    var t1 := AllocReg(a, i.rs1, UNLOCKED);
    AllocatedFacts(a, i.rs1, UNLOCKED, t1.a);
    AllocEncodable(a, i.rs1, UNLOCKED);
    var lock := Lock(t1.a.v[i.rs1].host, NoHost);
    AllocEncodable(t1.a, i.rs2, lock);
    EncodableConcat(t1.code, AllocReg(t1.a, i.rs2, lock).code);
    if i.rd != 0 {
      AluOperandsEncodable(a, i);
    }
  }

  lemma AluOperandsEncodable(a: Alloc, i: G.Inst)
    requires Coherent(a) && G.Decoded(i) && i.rd != 0
    ensures AllEncodable(Operands(a, i).code)
  {
    hide AllocReg, Allocated, Straight, AllEncodable;
    CoherentShape(a);
    var d := AllocReg(a, i.rd, UNLOCKED);
    AllocatedFacts(a, i.rd, UNLOCKED, d.a);
    AllocEncodable(a, i.rd, UNLOCKED);
    var dh := d.a.v[i.rd].host;
    var s1 := AllocReg(d.a, i.rs1, Lock(dh, NoHost));
    AllocatedFacts(d.a, i.rs1, Lock(dh, NoHost), s1.a);
    AllocEncodable(d.a, i.rs1, Lock(dh, NoHost));
    EncodableConcat(d.code, s1.code);
    if !G.IsImm(i.op) {
      var lock := Lock(dh, s1.a.v[i.rs1].host);
      AllocEncodable(s1.a, i.rs2, lock);
      EncodableConcat(d.code + s1.code, AllocReg(s1.a, i.rs2, lock).code);
    }
  }

  lemma EmitEncodable(a: Alloc, i: G.Inst)
    requires Coherent(a) && G.Decoded(i)
    ensures AllEncodable(EmitInst(a, i).code)
  {
    hide Operands, StoreOperands, Template, StoreBody, AllEncodable;
    NothingEncodable();
    OperandsEncodable(a, i);
    if G.IsStore(i.op) {
      var o := StoreOperands(a, i);
      CoherentShape(o.a);
      var s1, s2 := Seen(o.a.v[i.rs1].host), Seen(o.a.v[i.rs2].host);
      StoreBodyEncodable(i, s1, s2);
      EncodableConcat(o.code, StoreBody(i, s1, s2));
    } else if i.rd != 0 {
      var o := Operands(a, i);
      CoherentShape(o.a);
      var d, s1, s2 := Seen(o.a.v[i.rd].host), Seen(o.a.v[i.rs1].host), Seen(o.a.v[i.rs2].host);
      TemplateEncodable(i, d, s1, s2);
      EncodableConcat(o.code, Template(i, d, s1, s2));
    }
  }

  lemma {:induction false} CompileEncodable(code: seq<G.Inst>)
    requires forall i <- code :: G.Decoded(i)
    ensures AllEncodable(Compile(code).code)
    decreases |code|
  {
    hide EmitInst, Coherent, AllEncodable;
    if code == [] {
      NothingEncodable();
    } else {
      var n := |code| - 1;
      CompileEncodable(code[..n]);
      EmitEncodable(Compile(code[..n]).a, code[n]);
      EncodableConcat(Compile(code[..n]).code, EmitInst(Compile(code[..n]).a, code[n]).code);
    }
  }

  lemma {:induction false} WriteBackEncodable(a: Alloc, k: nat)
    requires Shape(a) && k <= 32
    ensures AllEncodable(WriteBack(a, k))
    decreases 32 - k
  {
    if k < 32 {
      WriteBackEncodable(a, k + 1);
      HomeEncodable(k, Seen(a.v[k].host));
    }
  }

  lemma FrameEncodable()
    ensures AllEncodable(PROLOGUE) && AllEncodable(LEAVE)
  {
  }

  lemma FunctionEncodable(code: seq<G.Inst>)
    requires forall i <- code :: G.Decoded(i)
    ensures AllEncodable(Function(code))
  {
    hide Compile, WriteBack, Coherent, AllEncodable;
    var b := Compile(code);
    CoherentShape(b.a);
    CompileEncodable(code);
    WriteBackEncodable(b.a, 0);
    FrameEncodable();
    EncodableConcat(PROLOGUE, b.code);
    EncodableConcat(PROLOGUE + b.code, WriteBack(b.a, 0));
    EncodableConcat(PROLOGUE + b.code + WriteBack(b.a, 0), LEAVE);
  }

  /** The bytes of a finished block: they decode to its instructions and fit the buffer. */
  lemma FunctionBytes(code: seq<G.Inst>)
    requires |code| <= RVJIT_MAX_INSTRUCTIONS && forall i <- code :: G.Decoded(i)
    ensures AllEncodable(Function(code))
    ensures var bytes := BytesAll(Function(code));
      |bytes| <= 4057 && DecodeAll(bytes) == Some(Function(code))
  {
    hide Function, Encodable;
    FunctionEncodable(code);
    BlockFits(code);
    BytesAllSize(Function(code));
    RoundTripAll(Function(code));
  }
}
