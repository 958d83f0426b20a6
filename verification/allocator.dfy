/** Register allocation: 31 guest registers over 8 host registers, with lazy loads, spilling by stamp. */
module Allocator {
  import opened Wrappers
  import opened Host

  /** A host register, or 0xFF for "none". */
  datatype HostSlot = NoHost | In(r: Reg)

  datatype VReg = VReg(
    mapped: bool, host: HostSlot, hostIdx: nat, dirty: bool, valid: bool, isZero: bool)

  datatype HReg = HReg(used: bool, vreg: nat, lastUse: nat)

  datatype Alloc = Alloc(v: seq<VReg>, h: seq<HReg>, counter: nat)

  /** An allocator state and the code emitted to reach it. */
  datatype Result = Result(a: Alloc, code: seq<Inst>)

  const POOL := 8

  /** The registers handed out, in the order `reset` lists them. */
  function Pool(k: nat): Reg {
    match k
    case 0 => RAX
    case 1 => RDX
    case 2 => RSI
    case 3 => RDI
    case 4 => R8
    case 5 => R9
    case 6 => R10
    case _ => R11
  }

  function PoolIndex(r: Reg): nat {
    match r
    case RAX => 0
    case RDX => 1
    case RSI => 2
    case RDI => 3
    case R8 => 4
    case R9 => 5
    case R10 => 6
    case R11 => 7
    case _ => POOL
  }

  /** Where a guest register lives in memory: R13 points at the array of guest registers. */
  function Home(r: nat): Mem { Mem(R13, None, 0, 8 * r) }

  ghost predicate Shape(a: Alloc) {
    && |a.v| == 32 && |a.h| == POOL
    && (forall i | 0 <= i < 32 :: a.v[i].hostIdx < POOL)
  }

  /**
   * Allocated guest registers and used host registers form a bijection onto the pool; every
   * allocated register has been loaded, and only allocated ones can be dirty.
   */
  ghost predicate Coherent(a: Alloc) {
    && Shape(a)
    && a.v[0] == VReg(false, NoHost, a.v[0].hostIdx, false, false, true)
    && (forall i | 1 <= i < 32 :: !a.v[i].isZero && (!a.v[i].mapped ==> !a.v[i].dirty && !a.v[i].valid))
    && (forall i | 1 <= i < 32 && a.v[i].mapped :: Placed(a, i))
    && (forall k | 0 <= k < POOL && a.h[k].used :: Owned(a, k))
  }

  ghost predicate Placed(a: Alloc, i: nat)
    requires Shape(a) && i < 32
  {
    && a.v[i].valid && a.v[i].host.In?
    && var k := PoolIndex(a.v[i].host.r);
    && k < POOL && a.h[k].used && a.h[k].vreg == i
  }

  ghost predicate Owned(a: Alloc, k: nat)
    requires Shape(a) && k < POOL
  {
    && 1 <= a.h[k].vreg < 32 && a.v[a.h[k].vreg].mapped && a.v[a.h[k].vreg].host == In(Pool(k))
  }

  function Fresh(): Alloc {
    Alloc(
      seq(32, i => VReg(false, NoHost, 0, false, false, i == 0)),
      seq(POOL, _ => HReg(false, 0xFF, 0)),
      0)
  }

  /** The host registers an allocation must not touch; at most two are ever passed. */
  datatype Lock = Lock(x: HostSlot, y: HostSlot)

  predicate IsLocked(lock: Lock, s: HostSlot) { s == lock.x || s == lock.y }

  predicate Locked(lock: Lock, k: nat) { IsLocked(lock, In(Pool(k))) }

  /** First unlocked register from `k` on that is free, or POOL. */
  function FreeFrom(h: seq<HReg>, lock: Lock, k: nat): (r: nat)
    requires |h| == POOL && k <= POOL
    ensures k <= r <= POOL
    ensures r < POOL ==> !Locked(lock, r) && !h[r].used
    ensures forall j | k <= j < r :: Locked(lock, j) || h[j].used
    decreases POOL - k
  {
    if k == POOL then POOL
    else if !Locked(lock, k) && !h[k].used then k
    else FreeFrom(h, lock, k + 1)
  }

  /** The spill scan from `k` on, `victim` being the choice so far (POOL for none). */
  function VictimFrom(h: seq<HReg>, lock: Lock, k: nat, victim: nat): (r: nat)
    requires |h| == POOL && k <= POOL && victim <= POOL
    requires victim < POOL ==> victim < k && !Locked(lock, victim)
    ensures r <= POOL
    ensures r < POOL ==> !Locked(lock, r)
    ensures r == POOL ==> victim == POOL && forall j | k <= j < POOL :: Locked(lock, j)
    decreases POOL - k
  {
    if k == POOL then victim
    else if Locked(lock, k) then VictimFrom(h, lock, k + 1, victim)
    else if victim == POOL || h[k].lastUse < h[victim].lastUse then VictimFrom(h, lock, k + 1, k)
    else VictimFrom(h, lock, k + 1, victim)
  }

  /** With no free register to take, the scan finds one to spill: at most two of the eight are locked. */
  lemma VictimUsed(h: seq<HReg>, lock: Lock)
    requires |h| == POOL && FreeFrom(h, lock, 0) == POOL
    ensures var k := VictimFrom(h, lock, 0, POOL); k < POOL && !Locked(lock, k) && h[k].used
  {
    assert !Locked(lock, 0) || !Locked(lock, 1) || !Locked(lock, 2);
  }

  function EnsureLoaded(a: Alloc, r: nat): Result
    requires Shape(a) && r < 32 && a.v[r].host.In?
  {
    if a.v[r].mapped && !a.v[r].valid then
      Result(a.(v := a.v[r := a.v[r].(valid := true)]), [Load(a.v[r].host.r, Home(r))])
    else
      Result(a, [])
  }

  /** Frees host register `k`, writing its guest register back if dirty. */
  function Spill(a: Alloc, k: nat): Result
    requires Shape(a) && k < POOL && a.h[k].vreg < 32
  {
    var i := a.h[k].vreg;
    Result(
      a.(h := a.h[k := a.h[k].(used := false)],
         v := a.v[i := a.v[i].(mapped := false, valid := false, dirty := false)]),
      if a.v[i].dirty then [Store(8, Pool(k), Home(i))] else [])
  }

  function AllocReg(a: Alloc, r: nat, lock: Lock): (res: Result)
    requires Coherent(a) && r < 32
    ensures Allocated(a, r, lock, res.a) && Straight(res.code)
  {
    if r == 0 then Result(a, [])
    else if a.v[r].mapped then
      TouchCoherent(a, r);
      Result(Touch(a, r), [])
    else
      var k := FreeFrom(a.h, lock, 0);
      if k < POOL then
        TakeCoherent(a, r, k);
        Take(a, r, k)
      else
        var k := VictimFrom(a.h, lock, 0, POOL);
        VictimUsed(a.h, lock);
        SpillCoherent(a, k);
        ClaimCoherent(Spill(a, k).a, r, k);
        var s := Spill(a, k);
        var t := Claim(s.a, r, k);
        Result(t.a, s.code + t.code)
  }

  /** A hit: stamps the slot named by `hostIdx`. The register is already loaded. */
  function Touch(a: Alloc, r: nat): Alloc
    requires Shape(a) && r < 32
  {
    var k := a.v[r].hostIdx;
    a.(counter := a.counter + 1, h := a.h[k := a.h[k].(lastUse := a.counter + 1)])
  }

  /** The free-register path; it leaves `hostIdx` as it was. */
  function Take(a: Alloc, r: nat, k: nat): Result
    requires Shape(a) && r < 32 && k < POOL
  {
    EnsureLoaded(
      a.(h := a.h[k := a.h[k].(used := true, vreg := r)],
         v := a.v[r := a.v[r].(mapped := true, host := In(Pool(k)))]),
      r)
  }

  /** The path after a spill. */
  function Claim(a: Alloc, r: nat, k: nat): Result
    requires Shape(a) && r < 32 && k < POOL
  {
    EnsureLoaded(
      a.(h := a.h[k := a.h[k].(used := true, vreg := r)],
         v := a.v[r := a.v[r].(mapped := true, valid := false, host := In(Pool(k)), hostIdx := k)]),
      r)
  }

  /** What one call may change: locked registers stay where they are, `r` ends up allocated. */
  ghost predicate Allocated(a: Alloc, r: nat, lock: Lock, a': Alloc)
    requires Shape(a) && r < 32
  {
    && Coherent(a')
    && (r != 0 ==> a'.v[r].mapped && (!a.v[r].mapped ==> !IsLocked(lock, a'.v[r].host)))
    && (forall i | 1 <= i < 32 && a.v[i].mapped && (i == r || IsLocked(lock, a.v[i].host)) ::
          a'.v[i] == a.v[i])
  }

  lemma TouchCoherent(a: Alloc, r: nat)
    requires Coherent(a) && 1 <= r < 32 && a.v[r].mapped
    ensures Coherent(Touch(a, r))
    ensures EnsureLoaded(Touch(a, r), r) == Result(Touch(a, r), [])
  {
    assert Placed(a, r);
    var a' := Touch(a, r);
    forall i | 1 <= i < 32 && a'.v[i].mapped ensures Placed(a', i) { assert Placed(a, i); }
    forall k | 0 <= k < POOL && a'.h[k].used ensures Owned(a', k) { assert Owned(a, k); }
  }

  lemma TakeCoherent(a: Alloc, r: nat, k: nat)
    requires Coherent(a) && 1 <= r < 32 && k < POOL && !a.v[r].mapped && !a.h[k].used
    ensures Take(a, r, k).code == [Load(Pool(k), Home(r))]
    ensures var a' := Take(a, r, k).a;
      && Coherent(a') && a'.v[r].mapped && !a'.v[r].dirty && a'.v[r].host == In(Pool(k))
      && (forall i | 0 <= i < 32 && i != r :: a'.v[i] == a.v[i])
  {
    var a' := Take(a, r, k).a;
    forall i | 1 <= i < 32 && a'.v[i].mapped ensures Placed(a', i) { assert i != r ==> Placed(a, i); }
    forall j | 0 <= j < POOL && a'.h[j].used ensures Owned(a', j) { assert j != k ==> Owned(a, j); }
  }

  lemma SpillCoherent(a: Alloc, k: nat)
    requires Coherent(a) && k < POOL && a.h[k].used
    ensures Owned(a, k)
    ensures var a' := Spill(a, k).a;
      && Coherent(a') && !a'.h[k].used
      && (forall i | 0 <= i < 32 && i != a.h[k].vreg :: a'.v[i] == a.v[i])
      && !a'.v[a.h[k].vreg].mapped
  {
    assert Owned(a, k);
    var a' := Spill(a, k).a;
    forall i | 1 <= i < 32 && a'.v[i].mapped ensures Placed(a', i) { assert Placed(a, i); }
    forall j | 0 <= j < POOL && a'.h[j].used ensures Owned(a', j) { assert Owned(a, j); }
  }

  lemma ClaimCoherent(a: Alloc, r: nat, k: nat)
    requires Coherent(a) && 1 <= r < 32 && k < POOL && !a.v[r].mapped && !a.h[k].used
    ensures Claim(a, r, k).code == [Load(Pool(k), Home(r))]
    ensures var a' := Claim(a, r, k).a;
      && Coherent(a') && a'.v[r].mapped && !a'.v[r].dirty && a'.v[r].host == In(Pool(k))
      && (forall i | 0 <= i < 32 && i != r :: a'.v[i] == a.v[i])
  {
    var a' := Claim(a, r, k).a;
    forall i | 1 <= i < 32 && a'.v[i].mapped ensures Placed(a', i) { assert i != r ==> Placed(a, i); }
    forall j | 0 <= j < POOL && a'.h[j].used ensures Owned(a', j) { assert j != k ==> Owned(a, j); }
  }
}
