/** The JIT's mutable state: code buffer, register tables, and the recorder that builds blocks. */
module Jit {
  import opened Host
  import opened Encode
  import opened EmittedBytes
  import opened Sizes
  import A = Allocator
  import E = Emit
  import G = Guest

  class JitBlock {
    const bytes: array<Byte>
    var pos: nat
    ghost var code: seq<Inst>

    /** The buffer starts with the bytes of the instructions emitted so far. */
    ghost predicate Valid()
      reads this, bytes
    {
      && bytes.Length == RVJIT_FUNC_SIZE
      && AllEncodable(code) && pos == SizeAll(code) <= RVJIT_FUNC_SIZE
      && bytes[..pos] == BytesAll(code)
    }

    constructor ()
      ensures Valid() && code == [] && fresh(bytes)
    {
      bytes := new Byte[RVJIT_FUNC_SIZE](_ => 0);
      pos := 0;
      code := [];
    }

    method Clear()
      requires Valid()
      modifies this`pos, this`code
      ensures Valid() && code == [] && pos == 0
    {
      pos := 0;
      code := [];
    }

    /** Appends one instruction, byte by byte. */
    method Put(i: Inst)
      requires Valid() && Encodable(i) && pos + Size(i) <= RVJIT_FUNC_SIZE
      modifies this`pos, this`code, bytes
      ensures Valid() && code == old(code) + [i] && pos == old(pos) + Size(i)
    {
      hide Bytes, Size, BytesAll, SizeAll, Encodable;
      var bs := Bytes(i);
      ghost var start := pos;
      BytesSize(i);
      for k := 0 to |bs|
        invariant code == old(code)
        invariant pos == start + k
        invariant bytes[..start] == old(bytes[..pos])
        invariant bytes[start..pos] == bs[..k]
      {
        bytes[pos] := bs[k];
        pos := pos + 1;
        assert bytes[start..pos] == bytes[start..pos - 1] + [bs[k]];
        assert bs[..k + 1] == bs[..k] + [bs[k]];
      }
      assert bytes[..pos] == bytes[..start] + bytes[start..pos];
      AppendBytes(code, i);
      code := code + [i];
    }

    method PutAll(more: seq<Inst>)
      requires Valid() && AllEncodable(more) && pos + SizeAll(more) <= RVJIT_FUNC_SIZE
      modifies this`pos, this`code, bytes
      ensures Valid() && code == old(code) + more && pos == old(pos) + SizeAll(more)
    {
      SizeEnds(more);
      hide Size, Encodable, BytesAll, SizeAll;
      for k := 0 to |more|
        invariant Valid() && code == old(code) + more[..k]
        invariant pos + SizeAll(more[k..]) == old(pos) + SizeAll(more)
      {
        SizeCons(more[k..]);
        assert more[k] in more;
        assert more[k..][0] == more[k] && more[k..][1..] == more[k + 1..];
        Put(more[k]);
        assert more[..k + 1] == more[..k] + [more[k]];
      }
    }
  }

  lemma SizeEnds(code: seq<Inst>)
    ensures code[0..] == code && code[..|code|] == code && SizeAll(code[|code|..]) == 0
  {
  }

  lemma SizeCons(code: seq<Inst>)
    ensures code != [] ==> SizeAll(code) == Size(code[0]) + SizeAll(code[1..])
  {
  }

  lemma AppendBytes(code: seq<Inst>, i: Inst)
    requires AllEncodable(code) && Encodable(i)
    ensures AllEncodable(code + [i])
    ensures BytesAll(code + [i]) == BytesAll(code) + Bytes(i)
    ensures SizeAll(code + [i]) == SizeAll(code) + Size(i)
  {
    SizeAppend(code, [i]);
    SizeUpTo5([i]);
    BytesAppend(code, i);
  }

  lemma {:induction false} BytesAppend(code: seq<Inst>, i: Inst)
    requires AllEncodable(code) && Encodable(i)
    ensures AllEncodable(code + [i])
    ensures BytesAll(code + [i]) == BytesAll(code) + Bytes(i)
    decreases |code|
  {
    hide Bytes, Encodable;
    if code == [] {
      assert [i][1..] == [];
      assert Bytes(i) + [] == [] + Bytes(i);
    } else {
      assert (code + [i])[1..] == code[1..] + [i];
      BytesAppend(code[1..], i);
    }
  }

  class JitEmitter {
    const vregs: array<A.VReg>
    const hostRegs: array<A.HReg>
    var useCounter: nat

    ghost predicate Valid()
      reads this, vregs, hostRegs
    {
      vregs.Length == 32 && hostRegs.Length == A.POOL && A.Coherent(View())
    }

    ghost function View(): A.Alloc
      reads this, vregs, hostRegs
    {
      A.Alloc(vregs[..], hostRegs[..], useCounter)
    }

    constructor ()
      ensures Valid() && View() == A.Fresh() && fresh(vregs) && fresh(hostRegs)
    {
      vregs := new A.VReg[32](i => A.VReg(false, A.NoHost, 0, false, false, i == 0));
      hostRegs := new A.HReg[A.POOL](_ => A.HReg(false, 0xFF, 0));
      useCounter := 0;
      new;
      assert View() == A.Fresh();
      E.FreshCoherent();
    }

    method Reset()
      requires Valid()
      modifies vregs, hostRegs, this`useCounter
      ensures Valid() && View() == A.Fresh()
    {
      useCounter := 0;
      for i := 0 to A.POOL
        invariant useCounter == 0
        invariant forall j | 0 <= j < i :: hostRegs[j] == A.HReg(false, 0xFF, 0)
      {
        hostRegs[i] := A.HReg(false, 0xFF, 0);
      }
      for i := 0 to 32
        invariant useCounter == 0
        invariant forall j | 0 <= j < i :: vregs[j] == A.VReg(false, A.NoHost, 0, false, false, j == 0)
        invariant forall j | 0 <= j < A.POOL :: hostRegs[j] == A.HReg(false, 0xFF, 0)
      {
        vregs[i] := A.VReg(false, A.NoHost, 0, false, false, i == 0);
      }
      assert vregs[..] == A.Fresh().v && hostRegs[..] == A.Fresh().h;
      assert View() == A.Fresh();
      E.FreshCoherent();
    }

    /** Loads a mapped guest register that has no value yet. */
    method EnsureLoaded(blk: JitBlock, r: nat)
      requires vregs.Length == 32 && hostRegs.Length == A.POOL && A.Shape(View())
      requires blk.Valid() && blk.pos + 7 <= RVJIT_FUNC_SIZE
      requires r < 32 && vregs[r].host.In?
      modifies vregs, blk`pos, blk`code, blk.bytes
      ensures blk.Valid() && blk.pos <= old(blk.pos) + 7
      ensures View() == A.EnsureLoaded(old(View()), r).a
      ensures blk.code == old(blk.code) + A.EnsureLoaded(old(View()), r).code
    {
      if vregs[r].mapped && !vregs[r].valid {
        var load := Load(vregs[r].host.r, A.Home(r));
        HomeEncodable(r, vregs[r].host.r);
        assert Encodable(load) by { assert load in [load]; }
        HomeSize(r, vregs[r].host.r);
        blk.Put(load);
        vregs[r] := vregs[r].(valid := true);
      }
    }

    /** First unlocked free host register, or POOL. */
    method FindFree(lock: A.Lock) returns (k: nat)
      requires hostRegs.Length == A.POOL
      ensures k == A.FreeFrom(hostRegs[..], lock, 0)
    {
      k := 0;
      while k < A.POOL
        invariant k <= A.POOL
        invariant A.FreeFrom(hostRegs[..], lock, 0) == A.FreeFrom(hostRegs[..], lock, k)
      {
        if !A.Locked(lock, k) && !hostRegs[k].used {
          return;
        }
        k := k + 1;
      }
    }

    /** The first unlocked host register with the oldest stamp. */
    method ChooseVictim(lock: A.Lock) returns (victim: nat)
      requires hostRegs.Length == A.POOL
      ensures victim == A.VictimFrom(hostRegs[..], lock, 0, A.POOL)
    {
      victim := A.POOL;
      for k := 0 to A.POOL
        invariant victim <= A.POOL && (victim < A.POOL ==> victim < k && !A.Locked(lock, victim))
        invariant A.VictimFrom(hostRegs[..], lock, 0, A.POOL) == A.VictimFrom(hostRegs[..], lock, k, victim)
      {
        if !A.Locked(lock, k) && (victim == A.POOL || hostRegs[k].lastUse < hostRegs[victim].lastUse) {
          victim := k;
        }
      }
    }

    /** Frees host register `k`, writing its guest register back if dirty. */
    method Evict(blk: JitBlock, k: nat)
      requires Valid() && blk.Valid() && k < A.POOL && hostRegs[k].used && blk.pos + 7 <= RVJIT_FUNC_SIZE
      modifies vregs, hostRegs, blk`pos, blk`code, blk.bytes
      ensures Valid() && blk.Valid() && blk.pos <= old(blk.pos) + 7
      ensures 1 <= old(hostRegs[k].vreg) < 32 && View() == A.Spill(old(View()), k).a
      ensures blk.code == old(blk.code) + A.Spill(old(View()), k).code
    {
      A.SpillCoherent(View(), k);
      hide A.Coherent, A.Owned;
      OwnedRange(View(), k);
      var i := hostRegs[k].vreg;
      hostRegs[k] := hostRegs[k].(used := false);
      if vregs[i].dirty {
        var store := Store(8, A.Pool(k), A.Home(i));
        HomeEncodable(i, A.Pool(k));
        assert Encodable(store) by { assert store in [store]; }
        HomeSize(i, A.Pool(k));
        blk.Put(store);
      }
      vregs[i] := vregs[i].(mapped := false, valid := false, dirty := false);
      assert View() == A.Spill(old(View()), k).a;
    }

    /** Gives the free host register `k` to `r`; `spilled` tells the two callers apart. */
    method Give(blk: JitBlock, r: nat, k: nat, spilled: bool)
      requires Valid() && blk.Valid() && blk.pos + 7 <= RVJIT_FUNC_SIZE
      requires 1 <= r < 32 && k < A.POOL && !vregs[r].mapped && !hostRegs[k].used
      modifies vregs, hostRegs, blk`pos, blk`code, blk.bytes
      ensures Valid() && blk.Valid() && blk.pos <= old(blk.pos) + 7
      ensures var res := if spilled then A.Claim(old(View()), r, k) else A.Take(old(View()), r, k);
        View() == res.a && blk.code == old(blk.code) + res.code
    {
      A.TakeCoherent(View(), r, k);
      A.ClaimCoherent(View(), r, k);
      CoherentShape(View());
      hide A.Coherent;
      hostRegs[k] := hostRegs[k].(used := true, vreg := r);
      if spilled {
        vregs[r] := vregs[r].(valid := false, mapped := true, host := A.In(A.Pool(k)), hostIdx := k);
      } else {
        vregs[r] := vregs[r].(mapped := true, host := A.In(A.Pool(k)));
      }
      EnsureLoaded(blk, r);
    }

    /** Host register for guest register `r`, loaded; registers in `lock` stay put. */
    method AllocReg(blk: JitBlock, r: nat, lock: A.Lock)
      requires Valid() && blk.Valid() && r < 32 && blk.pos + 14 <= RVJIT_FUNC_SIZE
      modifies vregs, hostRegs, this`useCounter, blk`pos, blk`code, blk.bytes
      ensures Valid() && blk.Valid() && blk.pos <= old(blk.pos) + 14
      ensures View() == A.AllocReg(old(View()), r, lock).a
      ensures blk.code == old(blk.code) + A.AllocReg(old(View()), r, lock).code
    {
      AllocCases(View(), r, lock);
      hide A.AllocReg, A.Coherent, A.Allocated, A.Touch, A.Take, A.Claim, A.Spill, Straight;
      if r == 0 {
        return;
      }
      if vregs[r].mapped {
        Touch(r);
        return;
      }
      var k := FindFree(lock);
      if k < A.POOL {
        Give(blk, r, k, false);
      } else {
        var victim := ChooseVictim(lock);
        Replace(blk, r, victim);
      }
    }

    /** A register that is already mapped is only marked as used. */
    method Touch(r: nat)
      requires Valid() && 1 <= r < 32 && vregs[r].mapped
      modifies hostRegs, this`useCounter
      ensures Valid() && View() == A.Touch(old(View()), r)
      ensures A.EnsureLoaded(View(), r) == A.Result(View(), [])
    {
      A.TouchCoherent(View(), r);
      CoherentShape(View());
      hide A.Coherent;
      var k := vregs[r].hostIdx;
      useCounter := useCounter + 1;
      hostRegs[k] := hostRegs[k].(lastUse := useCounter);
      assert View() == A.Touch(old(View()), r);
    }

    /** Evicts the owner of host register `k` in favour of `r`. */
    method Replace(blk: JitBlock, r: nat, k: nat)
      requires Valid() && blk.Valid() && k < A.POOL && hostRegs[k].used && 1 <= hostRegs[k].vreg < 32
      requires 1 <= r < 32 && !vregs[r].mapped && blk.pos + 14 <= RVJIT_FUNC_SIZE
      modifies vregs, hostRegs, blk`pos, blk`code, blk.bytes
      ensures Valid() && blk.Valid() && blk.pos <= old(blk.pos) + 14
      ensures var s := A.Spill(old(View()), k);
        var t := A.Claim(s.a, r, k);
        View() == t.a && blk.code == old(blk.code) + (s.code + t.code)
    {
      A.SpillCoherent(View(), k);
      hide A.Coherent, A.Claim, A.Owned;
      Evict(blk, k);
      Give(blk, r, k, true);
    }

    /** rd, rs1 and rs2, each locking the ones before. */
    method BringOperands(blk: JitBlock, i: G.Inst)
      requires Valid() && blk.Valid() && G.Decoded(i) && i.rd != 0
      requires blk.pos + 42 <= RVJIT_FUNC_SIZE
      modifies vregs, hostRegs, this`useCounter, blk`pos, blk`code, blk.bytes
      ensures Valid() && blk.Valid() && blk.pos <= old(blk.pos) + 42
      ensures View() == E.Operands(old(View()), i).a
      ensures blk.code == old(blk.code) + E.Operands(old(View()), i).code
    {
      hide A.Coherent, A.AllocReg, A.Allocated, Straight, E.Operands;
      ghost var a, c := View(), blk.code;
      AllocReg(blk, i.rd, E.UNLOCKED);
      ghost var d := A.AllocReg(a, i.rd, E.UNLOCKED);
      var dh := vregs[i.rd].host;
      AllocReg(blk, i.rs1, A.Lock(dh, A.NoHost));
      ghost var s1 := A.AllocReg(d.a, i.rs1, A.Lock(dh, A.NoHost));
      OperandsAre(a, i);
      Assoc(c, d.code, s1.code, []);
      if !G.IsImm(i.op) {
        var lock := A.Lock(dh, vregs[i.rs1].host);
        AllocReg(blk, i.rs2, lock);
        Assoc(c, d.code, s1.code, A.AllocReg(s1.a, i.rs2, lock).code);
      }
    }

    /** The template for operands that are in place; rd is dirty from here on. */
    method EmitTemplate(blk: JitBlock, i: G.Inst)
      requires Valid() && blk.Valid() && G.Decoded(i) && !G.IsStore(i.op)
      requires i.rd != 0 && vregs[i.rd].mapped && blk.pos + 50 <= RVJIT_FUNC_SIZE
      modifies vregs, blk`pos, blk`code, blk.bytes
      ensures Valid() && blk.Valid() && View() == E.MarkDirty(old(View()), i.rd)
      ensures blk.code == old(blk.code) + TemplateFor(i, old(View()))
    {
      ghost var o := View();
      E.MarkDirtyCoherent(o, i.rd);
      hide E.Template, Encodable, AllEncodable;
      var d, s1, s2 := E.Seen(vregs[i.rd].host), E.Seen(vregs[i.rs1].host), E.Seen(vregs[i.rs2].host);
      TemplateEncodable(i, d, s1, s2);
      TemplateSize(i, o, d, s1, s2);
      hide A.Coherent;
      blk.PutAll(E.Template(i, d, s1, s2));
      vregs[i.rd] := vregs[i.rd].(dirty := true);
      assert View() == E.MarkDirty(o, i.rd);
    }

    /** R- and I-type ALU instructions: `inst_emit_r_type` and `inst_emit_i_type`. */
    method EmitAlu(blk: JitBlock, i: G.Inst)
      requires Valid() && blk.Valid() && G.Decoded(i) && !G.IsStore(i.op)
      requires blk.pos + 100 <= RVJIT_FUNC_SIZE
      modifies vregs, hostRegs, this`useCounter, blk`pos, blk`code, blk.bytes
      ensures Valid() && blk.Valid()
      ensures View() == E.EmitInst(old(View()), i).a
      ensures blk.code == old(blk.code) + E.EmitInst(old(View()), i).code
    {
      EmitAluIs(View(), i);
      if i.rd == 0 {
        assert blk.code == blk.code + [];
        return;
      }
      hide A.Coherent, E.Operands, E.EmitInst, TemplateFor, Straight, E.MarkDirty, AllEncodable;
      ghost var c, o := blk.code, E.Operands(View(), i);
      BringOperands(blk, i);
      EmitTemplate(blk, i);
      Assoc(c, o.code, TemplateFor(i, o.a), []);
    }

    /** `jit_store`. */
    method EmitStore(blk: JitBlock, i: G.Inst)
      requires Valid() && blk.Valid() && G.Decoded(i) && G.IsStore(i.op)
      requires blk.pos + 110 <= RVJIT_FUNC_SIZE
      modifies vregs, hostRegs, this`useCounter, blk`pos, blk`code, blk.bytes
      ensures Valid() && blk.Valid()
      ensures View() == E.EmitInst(old(View()), i).a
      ensures blk.code == old(blk.code) + E.EmitInst(old(View()), i).code
    {
      hide A.Coherent, A.AllocReg, A.Allocated, E.StoreBody, Straight, E.StoreOperands, Encodable;
      ghost var a, c := View(), blk.code;
      AllocReg(blk, i.rs1, E.UNLOCKED);
      ghost var t1 := A.AllocReg(a, i.rs1, E.UNLOCKED);
      var lock := A.Lock(vregs[i.rs1].host, A.NoHost);
      AllocReg(blk, i.rs2, lock);
      StoreOperandsAre(a, i);
      Assoc(c, t1.code, A.AllocReg(t1.a, i.rs2, lock).code, []);
      var s1, s2 := E.Seen(vregs[i.rs1].host), E.Seen(vregs[i.rs2].host);
      StoreBodyEncodable(i, s1, s2);
      StoreSize(i, s1, s2);
      Assoc(c, E.StoreOperands(a, i).code, E.StoreBody(i, s1, s2), []);
      blk.PutAll(E.StoreBody(i, s1, s2));
    }

    /** The write-back of one guest register, if it owes one. */
    method PutHome(blk: JitBlock, i: nat)
      requires Valid() && blk.Valid() && i < 32
      requires blk.pos + SizeAll(E.WriteBack(View(), i)) <= RVJIT_FUNC_SIZE
      modifies blk`pos, blk`code, blk.bytes
      ensures blk.Valid()
      ensures blk.code + E.WriteBack(View(), i + 1) == old(blk.code) + E.WriteBack(View(), i)
      ensures blk.pos + SizeAll(E.WriteBack(View(), i + 1)) == old(blk.pos) + SizeAll(E.WriteBack(View(), i))
    {
      CoherentShape(View());
      hide A.Coherent, Encodable, Size;
      if vregs[i].mapped && vregs[i].dirty && !vregs[i].isZero {
        var store := Store(8, E.Seen(vregs[i].host), A.Home(i));
        HomeEncodable(i, E.Seen(vregs[i].host));
        assert Encodable(store) by { assert store in [store]; }
        SizeUpTo5([store]);
        SizeAppend([store], E.WriteBack(View(), i + 1));
        Assoc(blk.code, [store], E.WriteBack(View(), i + 1), []);
        blk.Put(store);
      } else {
        assert [] + E.WriteBack(View(), i + 1) == E.WriteBack(View(), i + 1);
      }
    }

    /** The epilogue: write back what is dirty, restore, return. */
    method EmitEpilogue(blk: JitBlock)
      requires Valid() && blk.Valid()
      requires blk.pos + SizeAll(E.WriteBack(View(), 0)) + 7 <= RVJIT_FUNC_SIZE
      modifies blk`pos, blk`code, blk.bytes
      ensures Valid() && blk.Valid()
      ensures blk.code == old(blk.code) + E.WriteBack(View(), 0) + E.LEAVE
    {
      hide E.WriteBack, A.Coherent;
      CoherentShape(View());
      ghost var back := E.WriteBack(View(), 0);
      for i := 0 to 32
        invariant blk.Valid()
        invariant blk.code + E.WriteBack(View(), i) == old(blk.code) + back
        invariant blk.pos + SizeAll(E.WriteBack(View(), i)) == old(blk.pos) + SizeAll(back)
      {
        PutHome(blk, i);
      }
      NothingOwed(View());
      assert blk.code == old(blk.code) + back;
      FrameSizes();
      FrameEncodable();
      blk.PutAll(E.LEAVE);
    }
  }

  lemma NothingOwed(a: A.Alloc)
    requires A.Shape(a)
    ensures E.WriteBack(a, 32) == []
  {
  }

  lemma OwnedRange(a: A.Alloc, k: nat)
    requires A.Coherent(a) && k < A.POOL && a.h[k].used
    ensures 1 <= a.h[k].vreg < 32
  {
    assert A.Owned(a, k);
  }

  /** Which of its four results an allocation has. */
  lemma AllocCases(a: A.Alloc, r: nat, lock: A.Lock)
    requires A.Coherent(a) && r < 32
    ensures r == 0 ==> A.AllocReg(a, r, lock) == A.Result(a, [])
    ensures r != 0 && a.v[r].mapped ==> A.AllocReg(a, r, lock) == A.Result(A.Touch(a, r), [])
    ensures r != 0 && !a.v[r].mapped ==>
      var k := A.FreeFrom(a.h, lock, 0);
      if k < A.POOL then A.AllocReg(a, r, lock) == A.Take(a, r, k)
      else
        var k := A.VictimFrom(a.h, lock, 0, A.POOL);
        && k < A.POOL && a.h[k].used && 1 <= a.h[k].vreg < 32
        && var s := A.Spill(a, k);
        var t := A.Claim(s.a, r, k);
        A.AllocReg(a, r, lock) == A.Result(t.a, s.code + t.code)
  {
    hide A.Allocated, Straight, A.Touch, A.Take, A.Claim, A.EnsureLoaded;
    if r != 0 && !a.v[r].mapped && A.FreeFrom(a.h, lock, 0) == A.POOL {
      A.VictimUsed(a.h, lock);
      OwnedRange(a, A.VictimFrom(a.h, lock, 0, A.POOL));
    }
  }

  lemma Assoc(a: seq<Inst>, b: seq<Inst>, c: seq<Inst>, d: seq<Inst>)
    ensures a + b + c == a + (b + c)
    ensures a + b + c + d == a + (b + c + d)
  {
  }

  lemma OperandsAre(a: A.Alloc, i: G.Inst)
    requires A.Coherent(a) && G.Decoded(i) && i.rd != 0
    ensures |a.v| == 32
    ensures var d := A.AllocReg(a, i.rd, E.UNLOCKED);
      && |d.a.v| == 32 && A.Coherent(d.a)
      && var dh := d.a.v[i.rd].host;
      var s1 := A.AllocReg(d.a, i.rs1, A.Lock(dh, A.NoHost));
      && |s1.a.v| == 32 && A.Coherent(s1.a)
      && var s2 := A.AllocReg(s1.a, i.rs2, A.Lock(dh, s1.a.v[i.rs1].host));
      E.Operands(a, i)
      == if G.IsImm(i.op) then A.Result(s1.a, d.code + s1.code) else A.Result(s2.a, d.code + s1.code + s2.code)
  {
    hide A.AllocReg, Straight;
  }

  lemma StoreOperandsAre(a: A.Alloc, i: G.Inst)
    requires A.Coherent(a) && G.Decoded(i)
    ensures var t1 := A.AllocReg(a, i.rs1, E.UNLOCKED);
      && |t1.a.v| == 32 && A.Coherent(t1.a)
      && var t2 := A.AllocReg(t1.a, i.rs2, A.Lock(t1.a.v[i.rs1].host, A.NoHost));
      E.StoreOperands(a, i) == A.Result(t2.a, t1.code + t2.code)
  {
    hide A.AllocReg, Straight;
  }

  function TemplateFor(i: G.Inst, o: A.Alloc): seq<Inst>
    requires |o.v| == 32 && G.Decoded(i)
  {
    E.Template(i, E.Seen(o.v[i.rd].host), E.Seen(o.v[i.rs1].host), E.Seen(o.v[i.rs2].host))
  }

  lemma EmitAluIs(a: A.Alloc, i: G.Inst)
    requires A.Coherent(a) && G.Decoded(i) && !G.IsStore(i.op)
    ensures i.rd == 0 ==> E.EmitInst(a, i) == A.Result(a, [])
    ensures i.rd != 0 ==>
      var o := E.Operands(a, i);
      && |o.a.v| == 32
      && E.EmitInst(a, i) == A.Result(E.MarkDirty(o.a, i.rd), o.code + TemplateFor(i, o.a))
  {
    hide E.Operands, E.Template, E.MarkDirty, Straight;
    if i.rd != 0 { CoherentShape(E.Operands(a, i).a); }
  }
}
