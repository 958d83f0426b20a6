/** What the choice of a register to spill goes by: stamps meant to say how recently each host register was used,
    where they go when a guest register is used, and when that is the wrong register. */
module Recency {
  import opened Host
  import opened Allocator
  import Emit

  /** `k` is the first of the unlocked registers with the least stamp. */
  ghost predicate Oldest(h: seq<HReg>, lock: Lock, k: nat)
    requires |h| == POOL
  {
    && k < POOL && !Locked(lock, k)
    && (forall j | 0 <= j < POOL && !Locked(lock, j) :: h[k].lastUse <= h[j].lastUse)
    && (forall j | 0 <= j < k && !Locked(lock, j) :: h[k].lastUse < h[j].lastUse)
  }

  lemma {:induction false} VictimOldestFrom(h: seq<HReg>, lock: Lock, k: nat, victim: nat)
    requires |h| == POOL && k <= POOL && victim <= POOL
    requires victim == POOL ==> forall j | 0 <= j < k :: Locked(lock, j)
    requires victim < POOL ==> victim < k && !Locked(lock, victim)
    requires victim < POOL ==> forall j | 0 <= j < k && !Locked(lock, j) :: h[victim].lastUse <= h[j].lastUse
    requires victim < POOL ==> forall j | 0 <= j < victim && !Locked(lock, j) :: h[victim].lastUse < h[j].lastUse
    ensures VictimFrom(h, lock, k, victim) < POOL ==> Oldest(h, lock, VictimFrom(h, lock, k, victim))
    decreases POOL - k
  {
    hide Locked;
    if k < POOL {
      var next := if !Locked(lock, k) && (victim == POOL || h[k].lastUse < h[victim].lastUse) then k else victim;
      VictimOldestFrom(h, lock, k + 1, next);
    }
  }

  /** The register spilled is the first with the least stamp, of those not locked. */
  lemma VictimOldest(h: seq<HReg>, lock: Lock)
    requires |h| == POOL && FreeFrom(h, lock, 0) == POOL
    ensures Oldest(h, lock, VictimFrom(h, lock, 0, POOL))
  {
    hide Locked;
    VictimUsed(h, lock);
    VictimOldestFrom(h, lock, 0, POOL);
  }

  /** No stamp is ahead of the counter. */
  ghost predicate Stamped(a: Alloc) { forall k | 0 <= k < |a.h| :: a.h[k].lastUse <= a.counter }

  lemma StampedKept(a: Alloc, r: nat, lock: Lock)
    requires Coherent(a) && r < 32 && Stamped(a)
    ensures Stamped(AllocReg(a, r, lock).a)
  {
    hide Allocated, FreeFrom, VictimFrom, Locked, Owned, Placed;
    VictimUsedWhenFull(a, lock);
  }

  lemma VictimUsedWhenFull(a: Alloc, lock: Lock)
    requires Coherent(a)
    ensures FreeFrom(a.h, lock, 0) == POOL ==>
      var k := VictimFrom(a.h, lock, 0, POOL);
      k < POOL && a.h[k].used && a.h[k].vreg < 32
  {
    if FreeFrom(a.h, lock, 0) == POOL {
      VictimUsed(a.h, lock);
      assert Owned(a, VictimFrom(a.h, lock, 0, POOL));
    }
  }

  /** The host register that holds `r`. */
  function Own(a: Alloc, r: nat): (k: nat)
    requires Coherent(a) && 1 <= r < 32 && a.v[r].mapped
    ensures k < POOL
  {
    assert Placed(a, r);
    PoolIndex(a.v[r].host.r)
  }

  /** A use of an allocated guest register makes its own host register the most recent exactly when
      `hostIdx` names that register, which only the path after a spill sees to; else it makes some
      other register the most recent and leaves its own as old as it was. */
  lemma TouchOwn(a: Alloc, r: nat, lock: Lock)
    requires Coherent(a) && Stamped(a) && 1 <= r < 32 && a.v[r].mapped
    ensures
      var b := AllocReg(a, r, lock).a;
      b.counter == a.counter + 1
      && (b.h[Own(a, r)].lastUse == b.counter <==> a.v[r].hostIdx == Own(a, r))
      && (a.v[r].hostIdx != Own(a, r) ==>
        b.h[Own(a, r)] == a.h[Own(a, r)] && b.h[a.v[r].hostIdx].lastUse == b.counter)
  {
    TouchCoherent(a, r);
  }

  lemma CoherentShape(a: Alloc)
    requires Coherent(a)
    ensures Shape(a)
  {
  }

  /** After a spill the new holder's `hostIdx` is right; a free register leaves it as it was. */
  lemma IndexAfter(a: Alloc, r: nat, lock: Lock)
    requires Coherent(a) && 1 <= r < 32 && !a.v[r].mapped
    ensures
      var b := AllocReg(a, r, lock).a;
      Coherent(b) && b.v[r].mapped
      && (if FreeFrom(a.h, lock, 0) < POOL then b.v[r].hostIdx == a.v[r].hostIdx && Own(b, r) == FreeFrom(a.h, lock, 0)
          else b.v[r].hostIdx == Own(b, r))
  {
    hide Coherent, Owned, FreeFrom, VictimFrom, Locked;
    CoherentShape(a);
    var k := FreeFrom(a.h, lock, 0);
    if k < POOL {
      TakeCoherent(a, r, k);
    } else {
      var k := VictimFrom(a.h, lock, 0, POOL);
      VictimUsed(a.h, lock);
      SpillCoherent(a, k);
      ClaimCoherent(Spill(a, k).a, r, k);
    }
  }

  /** The stamps at work: x1 and x2 come into the first two registers, then x2 is used again. The
      register of x1 is stamped, and x2's own stays the older one. */
  lemma StampGoesAstray()
    ensures
      var none := Lock(NoHost, NoHost);
      Coherent(Fresh()) && Coherent(AllocReg(Fresh(), 1, none).a)
      && Coherent(AllocReg(AllocReg(Fresh(), 1, none).a, 2, none).a)
      && var a := AllocReg(AllocReg(AllocReg(Fresh(), 1, none).a, 2, none).a, 2, none).a;
      a.v[1].host == In(Pool(0)) && a.v[2].host == In(Pool(1)) && a.h[0].lastUse == 1 && a.h[1].lastUse == 0
  {
    var none := Lock(NoHost, NoHost);
    Emit.FreshCoherent();
    hide Coherent;
    var a1 := AllocReg(Fresh(), 1, none).a;
    assert FreeFrom(Fresh().h, none, 0) == 0;
    var a2 := AllocReg(a1, 2, none).a;
    assert a1.h[0].used && !a1.h[1].used;
    assert FreeFrom(a1.h, none, 0) == FreeFrom(a1.h, none, 1) == 1;
  }
}
