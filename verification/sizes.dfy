/** A block of at most 48 instructions fits its code buffer. */
module Sizes {
  import opened Wrappers
  import opened Host
  import opened Allocator
  import opened Emit
  import opened Encode
  import opened Templates
  import G = Guest

  const RVJIT_FUNC_SIZE := 0x1000
  const RVJIT_MAX_INSTRUCTIONS := 48

  /** A guest register that still has to be written back. */
  function Owes(v: VReg): nat { if v.mapped && v.dirty then 1 else 0 }

  function Debt(v: seq<VReg>): nat {
    if v == [] then 0 else Owes(v[0]) + Debt(v[1..])
  }

  lemma {:induction false} DebtUpdate(v: seq<VReg>, k: nat, x: VReg)
    requires k < |v|
    ensures Debt(v[k := x]) == Debt(v) - Owes(v[k]) + Owes(x)
    decreases |v|
  {
    if k == 0 {
      assert v[0 := x][1..] == v[1..];
    } else {
      assert v[k := x][1..] == v[1..][k - 1 := x];
      DebtUpdate(v[1..], k - 1, x);
    }
  }

  /**
   * The amortised cost of reaching `a'` from `a` with `code`: bytes now, plus 7 for every write-back
   * still to come.
   */
  ghost predicate Costs(a: Alloc, code: seq<Inst>, a': Alloc, n: nat) {
    SizeAll(code) + 7 * Debt(a'.v) <= 7 * Debt(a.v) + n
  }

  lemma CostsAdd(a: Alloc, c1: seq<Inst>, a1: Alloc, n1: nat, c2: seq<Inst>, a2: Alloc, n2: nat)
    requires Costs(a, c1, a1, n1) && Costs(a1, c2, a2, n2)
    ensures Costs(a, c1 + c2, a2, n1 + n2)
  {
    SizeAppend(c1, c2);
  }

  lemma HomeSize(r: nat, x: Reg)
    requires r < 32
    ensures Size(Load(x, Home(r))) <= 7 && Size(Store(8, x, Home(r))) <= 7
    ensures SizeAll([Load(x, Home(r))]) <= 7 && SizeAll([Store(8, x, Home(r))]) <= 7
  {
    assert [Load(x, Home(r))][1..] == [] && [Store(8, x, Home(r))][1..] == [];
  }

  lemma AllocCosts(a: Alloc, r: nat, lock: Lock)
    requires Coherent(a) && r < 32
    ensures var res := AllocReg(a, r, lock); Costs(a, res.code, res.a, if r == 0 then 0 else 7)
  {
    hide Coherent, Allocated, Straight, Size, Debt;
    if r == 0 {
    } else {
      CoherentShape(a);
      if a.v[r].mapped {
      } else {
        var k := FreeFrom(a.h, lock, 0);
        if k < POOL {
          TakeCosts(a, r, k);
        } else {
          var k := VictimFrom(a.h, lock, 0, POOL);
          VictimUsed(a.h, lock);
          SpillCosts(a, k);
          SpillCoherent(a, k);
          var s := Spill(a, k);
          ClaimCosts(s.a, r, k);
          CostsAdd(a, s.code, s.a, 0, Claim(s.a, r, k).code, Claim(s.a, r, k).a, 7);
        }
      }
    }
  }

  lemma CoherentShape(a: Alloc)
    requires Coherent(a)
    ensures Shape(a)
  {
  }

  lemma TakeCosts(a: Alloc, r: nat, k: nat)
    requires Coherent(a) && 1 <= r < 32 && k < POOL && !a.v[r].mapped && !a.h[k].used
    ensures Costs(a, Take(a, r, k).code, Take(a, r, k).a, 7)
  {
    TakeCoherent(a, r, k);
    HomeSize(r, Pool(k));
    var x := Take(a, r, k).a.v[r];
    assert Take(a, r, k).a.v == a.v[r := x];
    hide Coherent;
    DebtUpdate(a.v, r, x);
  }

  lemma ClaimCosts(a: Alloc, r: nat, k: nat)
    requires Coherent(a) && 1 <= r < 32 && k < POOL && !a.v[r].mapped && !a.h[k].used
    ensures Costs(a, Claim(a, r, k).code, Claim(a, r, k).a, 7)
  {
    ClaimCoherent(a, r, k);
    HomeSize(r, Pool(k));
    var x := Claim(a, r, k).a.v[r];
    assert Claim(a, r, k).a.v == a.v[r := x];
    hide Coherent;
    DebtUpdate(a.v, r, x);
  }

  /** A write-back pays for itself. */
  lemma SpillCosts(a: Alloc, k: nat)
    requires Coherent(a) && k < POOL && a.h[k].used
    ensures Owned(a, k) && Costs(a, Spill(a, k).code, Spill(a, k).a, 0)
  {
    assert Owned(a, k);
    hide Coherent;
    var i := a.h[k].vreg;
    HomeSize(i, Pool(k));
    DebtUpdate(a.v, i, Spill(a, k).a.v[i]);
  }

  lemma OperandsCost(a: Alloc, i: G.Inst)
    requires Coherent(a) && G.Decoded(i) && i.rd != 0
    ensures var o := Operands(a, i); Costs(a, o.code, o.a, 21)
  {
    hide AllocReg, Allocated, Costs, Straight;
    var d := AllocReg(a, i.rd, UNLOCKED);
    AllocCosts(a, i.rd, UNLOCKED);
    AllocatedFacts(a, i.rd, UNLOCKED, d.a);
    var dh := d.a.v[i.rd].host;
    var s1 := AllocReg(d.a, i.rs1, Lock(dh, NoHost));
    AllocCosts(d.a, i.rs1, Lock(dh, NoHost));
    AllocatedFacts(d.a, i.rs1, Lock(dh, NoHost), s1.a);
    Slack(a, d.code, d.a, 7, 7);
    Slack(d.a, s1.code, s1.a, if i.rs1 == 0 then 0 else 7, 7);
    CostsAdd(a, d.code, d.a, 7, s1.code, s1.a, 7);
    if G.IsImm(i.op) {
      Slack(a, d.code + s1.code, s1.a, 14, 21);
    } else {
      var lock := Lock(dh, s1.a.v[i.rs1].host);
      var s2 := AllocReg(s1.a, i.rs2, lock);
      AllocCosts(s1.a, i.rs2, lock);
      Slack(s1.a, s2.code, s2.a, if i.rs2 == 0 then 0 else 7, 7);
      CostsAdd(a, d.code + s1.code, s1.a, 14, s2.code, s2.a, 7);
    }
  }

  lemma Slack(a: Alloc, code: seq<Inst>, a': Alloc, n: nat, n': nat)
    requires Costs(a, code, a', n) && n <= n'
    ensures Costs(a, code, a', n')
  {
  }

  lemma AllocatedFacts(a: Alloc, r: nat, lock: Lock, a': Alloc)
    requires Shape(a) && r < 32 && Allocated(a, r, lock, a')
    ensures Coherent(a') && Shape(a')
  {
  }

  lemma StoreOperandsCost(a: Alloc, i: G.Inst)
    requires Coherent(a) && G.Decoded(i)
    ensures var o := StoreOperands(a, i);
      Costs(a, o.code, o.a, (if i.rs1 == 0 then 0 else 7) + if i.rs2 == 0 then 0 else 7)
  {
    hide AllocReg, Allocated, Costs, Straight;
    CoherentShape(a);
    var s1 := AllocReg(a, i.rs1, UNLOCKED);
    AllocCosts(a, i.rs1, UNLOCKED);
    AllocatedFacts(a, i.rs1, UNLOCKED, s1.a);
    var lock := Lock(s1.a.v[i.rs1].host, NoHost);
    AllocCosts(s1.a, i.rs2, lock);
    var s2 := AllocReg(s1.a, i.rs2, lock);
    CostsAdd(a, s1.code, s1.a, if i.rs1 == 0 then 0 else 7, s2.code, s2.a, if i.rs2 == 0 then 0 else 7);
  }

  lemma SizeUpTo5(c: seq<Inst>)
    ensures |c| == 0 ==> SizeAll(c) == 0
    ensures |c| == 1 ==> SizeAll(c) == Size(c[0])
    ensures |c| == 2 ==> SizeAll(c) == Size(c[0]) + Size(c[1])
    ensures |c| == 3 ==> SizeAll(c) == Size(c[0]) + Size(c[1]) + Size(c[2])
    ensures |c| == 4 ==> SizeAll(c) == Size(c[0]) + Size(c[1]) + Size(c[2]) + Size(c[3])
    ensures |c| == 5 ==> SizeAll(c) == Size(c[0]) + Size(c[1]) + Size(c[2]) + Size(c[3]) + Size(c[4])
    decreases |c|
  {
    hide Size;
    if 1 <= |c| <= 5 { SizeUpTo5(c[1..]); }
  }

  lemma {:induction false} LocalSize(c: seq<Inst>)
    requires forall x <- c :: IsLocal(x)
    ensures SizeAll(c) <= 10 * |c|
    decreases |c|
  {
    if c != [] {
      assert Size(c[0]) <= 10;
      LocalSize(c[1..]);
    }
  }

  lemma TemplateSize(i: G.Inst, o: Alloc, d: Reg, s1: Reg, s2: Reg)
    requires Coherent(o) && G.Decoded(i) && !G.IsStore(i.op)
    requires s1 == Seen(o.v[i.rs1].host) && s2 == Seen(o.v[i.rs2].host)
    ensures SizeAll(Template(i, d, s1, s2)) <= 50
  {
    assert ZeroInRdi(i, s1, s2);
    hide Body, Coherent, AllWrite, ZeroInRdi, UsesRdi, Shortcuts, G.IsImm, IsCompare;
    BodyWrites(i, d, s1, s2);
    WritesLocal(Body(i, d, s1, s2), d, Clobber(i));
    LocalSize(Body(i, d, s1, s2));
    MovesSize(d, s1, i.imm);
    MovesSize(d, s2, i.imm);
  }

  lemma WritesLocal(code: seq<Inst>, d: Reg, k: Option<Reg>)
    requires AllWrite(code, d, k)
    ensures forall x <- code :: IsLocal(x)
  {
    assert forall x <- code :: Writes(x, d, k) ==> IsLocal(x);
  }

  lemma MovesSize(d: Reg, s: Reg, imm: int)
    ensures SizeAll([AluRR(Xor, true, d, d)]) <= 10 && SizeAll([MovRR(d, s)]) <= 10
    ensures SizeAll([MovImm32(d, imm)]) <= 10
  {
    LocalSize([AluRR(Xor, true, d, d)]);
    LocalSize([MovRR(d, s)]);
    LocalSize([MovImm32(d, imm)]);
  }

  lemma CheckSize(i: G.Inst, s1: Reg)
    ensures SizeAll(StoreCheck(i, s1)) == 29
  {
    SizeUpTo5(StoreCheck(i, s1));
  }

  lemma SlowSize(i: G.Inst, s2: Reg, skip: int)
    ensures SizeAll(StoreSlow(i, s2, skip)) == 34
  {
    var c := StoreSlow(i, s2, skip);
    var c1, c2, c3 := c[..5], c[5..9], c[9..];
    SlowParts(i, s2, skip);
    hide Size, StoreSlow, SizeAll;
    SizeAppend(c1, c2);
    SizeAppend(c1 + c2, c3);
    assert c == c1 + c2 + c3;
  }

  lemma SlowParts(i: G.Inst, s2: Reg, skip: int)
    ensures var c := StoreSlow(i, s2, skip);
      |c| == 14 && SizeAll(c[..5]) == 7 && SizeAll(c[5..9]) == 21 && SizeAll(c[9..]) == 6
  {
    var c := StoreSlow(i, s2, skip);
    SizeUpTo5(c[..5]);
    SizeUpTo5(c[5..9]);
    SizeUpTo5(c[9..]);
  }

  lemma FastSize(i: G.Inst, s2: Reg)
    ensures SizeAll(StoreFast(i, s2)) <= if i.rs2 == 0 then 10 else 5
  {
    SizeUpTo5(StoreFast(i, s2));
  }

  lemma StoreSize(i: G.Inst, s1: Reg, s2: Reg)
    ensures SizeAll(StoreBody(i, s1, s2)) <= if i.rs2 == 0 then 75 else 70
  {
    hide StoreCheck, StoreSlow, StoreFast;
    var fast := StoreFast(i, s2);
    var slow := StoreSlow(i, s2, SizeAll(fast));
    var jbe := Jbe8(SizeAll(slow));
    CheckSize(i, s1);
    SlowSize(i, s2, SizeAll(fast));
    FastSize(i, s2);
    SizeUpTo5([jbe]);
    SizeAppend(StoreCheck(i, s1), [jbe]);
    SizeAppend(StoreCheck(i, s1) + [jbe], slow);
    SizeAppend(StoreCheck(i, s1) + [jbe] + slow, fast);
  }

  /** Any instruction costs at most 84 bytes, write-backs it causes later included. */
  lemma EmitCosts(a: Alloc, i: G.Inst)
    requires Coherent(a) && G.Decoded(i)
    ensures var r := EmitInst(a, i); Costs(a, r.code, r.a, 84)
  {
    hide Operands, StoreOperands, Template, StoreBody, Debt;
    CoherentShape(a);
    if G.IsStore(i.op) {
      var o := StoreOperands(a, i);
      StoreOperandsCost(a, i);
      CoherentShape(o.a);
      hide Coherent;
      var s1, s2 := Seen(o.a.v[i.rs1].host), Seen(o.a.v[i.rs2].host);
      StoreSize(i, s1, s2);
      SizeAppend(o.code, StoreBody(i, s1, s2));
    } else if i.rd != 0 {
      var o := Operands(a, i);
      OperandsCost(a, i);
      CoherentShape(o.a);
      var d, s1, s2 := Seen(o.a.v[i.rd].host), Seen(o.a.v[i.rs1].host), Seen(o.a.v[i.rs2].host);
      TemplateSize(i, o.a, d, s1, s2);
      hide Coherent;
      SizeAppend(o.code, Template(i, d, s1, s2));
      DebtUpdate(o.a.v, i.rd, MarkDirty(o.a, i.rd).v[i.rd]);
    }
  }

  lemma {:induction false} CompileCosts(code: seq<G.Inst>)
    requires forall i <- code :: G.Decoded(i)
    ensures Costs(Fresh(), Compile(code).code, Compile(code).a, 84 * |code|)
    decreases |code|
  {
    hide EmitInst, Coherent, Costs;
    if code == [] {
      NoCost();
    } else {
      var n := |code| - 1;
      var prev := Compile(code[..n]);
      CompileCosts(code[..n]);
      EmitCosts(prev.a, code[n]);
      CostsAdd(Fresh(), prev.code, prev.a, 84 * n, EmitInst(prev.a, code[n]).code, EmitInst(prev.a, code[n]).a, 84);
    }
  }

  lemma NoCost()
    ensures Costs(Fresh(), [], Fresh(), 0)
  {
  }

  lemma {:induction false} FreshDebt(v: seq<VReg>)
    requires forall x <- v :: !x.mapped
    ensures Debt(v) == 0
  {
    if v != [] { FreshDebt(v[1..]); }
  }

  /** Writing back costs what is owed. */
  lemma {:induction false} WriteBackSize(a: Alloc, k: nat)
    requires Shape(a) && k <= 32
    ensures SizeAll(WriteBack(a, k)) <= 7 * Debt(a.v[k..])
    decreases 32 - k
  {
    hide Size;
    if k < 32 {
      WriteBackSize(a, k + 1);
      assert a.v[k..][1..] == a.v[k + 1..];
      HomeSize(k, Seen(a.v[k].host));
      SizeAppend([Store(8, Seen(a.v[k].host), Home(k))], WriteBack(a, k + 1));
      assert [] + WriteBack(a, k + 1) == WriteBack(a, k + 1);
    }
  }

  lemma FrameSizes()
    ensures SizeAll(PROLOGUE) == 18 && SizeAll(LEAVE) == 7
  {
    var p, q := PROLOGUE[..3], PROLOGUE[3..];
    SizeUpTo5(p);
    SizeUpTo5(q);
    SizeUpTo5(LEAVE);
    SizeAppend(p, q);
    assert PROLOGUE == p + q;
  }

  /** 25 bytes of frame and 84 for each instruction, whatever is spilled, reloaded or written back. */
  lemma FunctionSize(code: seq<G.Inst>)
    requires forall i <- code :: G.Decoded(i)
    ensures SizeAll(Function(code)) <= 25 + 84 * |code|
    ensures SizeAll(PROLOGUE + Compile(code).code) + 7 * Debt(Compile(code).a.v) <= 18 + 84 * |code|
  {
    hide Compile, WriteBack, Coherent, Size;
    CoherentShape(Compile(code).a);
    FrameSizes();
    var b := Compile(code);
    CompileCosts(code);
    FreshDebt(Fresh().v);
    WriteBackSize(b.a, 0);
    assert b.a.v[0..] == b.a.v;
    SizeAppend(PROLOGUE, b.code);
    SizeAppend(PROLOGUE + b.code, WriteBack(b.a, 0));
    SizeAppend(PROLOGUE + b.code + WriteBack(b.a, 0), LEAVE);
  }

  /** Every recordable block fits the buffer. */
  lemma BlockFits(code: seq<G.Inst>)
    requires |code| <= RVJIT_MAX_INSTRUCTIONS && forall i <- code :: G.Decoded(i)
    ensures SizeAll(Function(code)) <= 4057 < RVJIT_FUNC_SIZE
  {
    hide Compile, Function;
    FunctionSize(code);
  }
}
