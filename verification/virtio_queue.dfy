/** A whole run of the queue over the new avail entries. */
module VirtioQueue {
  import opened Wrappers
  import opened GuestMemory
  import opened Virtio

  /** The state a run works on; `irqs` counts how often the line was raised. */
  datatype State = State(mem: Memory, disk: Disk, q: Queue, notified: bool, irqs: nat)

  predicate Sane(q: Queue) {
    0 < q.size < 0x1_0000_0000 && q.lastAvail < U16 && q.lastUsed < U16
  }

  function AvailIdx(st: State): (r: nat)
    ensures r < U16
  {
    assert Pow256(2) == U16;
    Load(st.mem, st.q.avail + 2, 2)
  }

  /** The address of the avail ring entry of a 16-bit position. */
  function AvailEntry(q: Queue, pos: nat): int
    requires q.size > 0
  {
    q.avail + 4 + 2 * (pos % q.size)
  }

  function UsedElem(q: Queue, pos: nat): int
    requires q.size > 0
  {
    q.used + 4 + 8 * (pos % q.size)
  }

  function Head(st: State): (r: nat)
    requires st.q.size > 0
    ensures r < U16
  {
    assert Pow256(2) == U16;
    Load(st.mem, AvailEntry(st.q, st.q.lastAvail), 2)
  }

  /** The chain of the next avail entry, when it is not rejected as malformed. */
  function NextChain(st: State): (r: Option<seq<Desc>>)
    requires st.q.size > 0
    ensures r.Some? ==> Accepted(r.value)
  {
    match FetchChain(st.mem, st.q, Head(st))
    case None => None
    case Some(chain) => if Accepted(chain) then Some(chain) else None
  }

  function Consumed(q: Queue): Queue { q.(lastAvail := (q.lastAvail + 1) % U16) }

  /** The used element of `head` and the new used.idx. */
  function Reported(m: Memory, q: Queue, head: nat): Memory
    requires q.size > 0
  {
    var m1 := Store(m, UsedElem(q, q.lastUsed), 4, head);
    var m2 := Store(m1, UsedElem(q, q.lastUsed) + 4, 4, 0);
    Store(m2, q.used + 2, 2, (q.lastUsed + 1) % U16)
  }

  /** One avail entry. */
  function Step(st: State): (r: State)
    requires Sane(st.q)
    ensures Sane(r.q) && r.q.lastAvail == (st.q.lastAvail + 1) % U16
  {
    match NextChain(st)
    case None => st.(q := Consumed(st.q))
    case Some(chain) =>
      var done := Request(st.mem, st.disk, chain);
      State(Reported(done.mem, st.q, Head(st)), done.disk,
            Consumed(st.q).(lastUsed := (st.q.lastUsed + 1) % U16), true, st.irqs + 1)
  }

  /** How many avail entries there are to consume, positions wrapping at 16 bits. */
  function Left(pos: nat, target: nat): nat { (target - pos) % U16 }

  lemma LeftStep(pos: nat, target: nat)
    requires pos < U16 && target < U16 && pos != target
    ensures Left((pos + 1) % U16, target) == Left(pos, target) - 1
  {
  }

  /** The loop, until the sampled index is reached. */
  function Drain(st: State, target: nat): (r: State)
    requires Sane(st.q) && target < U16
    ensures Sane(r.q)
    decreases Left(st.q.lastAvail, target)
  {
    if st.q.lastAvail == target then st
    else LeftStep(st.q.lastAvail, target); Drain(Step(st), target)
  }

  /** An accepted entry: where it stood in the avail ring and its head. */
  datatype Served = Served(pos: nat, head: nat)

  /** The accepted entries of a run, in the order of the avail ring. */
  function Log(st: State, target: nat): (r: seq<Served>)
    requires Sane(st.q) && target < U16
    decreases Left(st.q.lastAvail, target)
  {
    if st.q.lastAvail == target then []
    else
      LeftStep(st.q.lastAvail, target);
      (if NextChain(st).Some? then [Served(st.q.lastAvail, Head(st))] else []) + Log(Step(st), target)
  }

  // ---- the counters ----

  /** Whatever memory holds, a run consumes exactly the entries up to the sampled index and
      counts exactly those not rejected. */
  lemma {:induction false} DrainCounters(st: State, target: nat)
    requires Sane(st.q) && target < U16
    ensures
      var r, n := Drain(st, target), |Log(st, target)|;
      r.q == st.q.(lastAvail := target, lastUsed := (st.q.lastUsed + n) % U16)
      && n <= Left(st.q.lastAvail, target)
      && r.irqs == st.irqs + n && r.notified == (st.notified || n > 0)
    decreases Left(st.q.lastAvail, target)
  {
    hide NextChain, Head, Request, Reported, Step, Left, FetchChain, AvailEntry;
    if st.q.lastAvail != target {
      LeftStep(st.q.lastAvail, target);
      StepQueue(st);
      DrainCounters(Step(st), target);
      ModAdd(st.q.lastUsed, |Log(Step(st), target)|);
    }
  }

  /** used.idx in memory ends up saying what was counted; a run that accepts nothing changes
      neither memory nor disk. */
  lemma {:induction false} DrainReports(st: State, target: nat)
    requires Sane(st.q) && target < U16
    ensures
      var r := Drain(st, target);
      if Log(st, target) != [] then Load(r.mem, st.q.used + 2, 2) == r.q.lastUsed
      else r.mem == st.mem && r.disk == st.disk
    decreases Left(st.q.lastAvail, target)
  {
    hide NextChain, Head, Request, Store, Load, Reported, Step, Left, FetchChain, AvailEntry;
    if st.q.lastAvail != target {
      LeftStep(st.q.lastAvail, target);
      StepQueue(st);
      DrainReports(Step(st), target);
      DrainCounters(Step(st), target);
      if NextChain(st).Some? {
        ReportedIdx(Request(st.mem, st.disk, NextChain(st).value).mem, st.q, Head(st));
        ModAdd(st.q.lastUsed, 0);
      }
    }
  }

  /** What one entry does to the counters. */
  lemma StepQueue(st: State)
    requires Sane(st.q)
    ensures
      var own := NextChain(st).Some?;
      Step(st).q == st.q.(lastAvail := (st.q.lastAvail + 1) % U16,
                          lastUsed := if own then (st.q.lastUsed + 1) % U16 else st.q.lastUsed)
      && Step(st).irqs == st.irqs + (if own then 1 else 0) && Step(st).notified == (st.notified || own)
      && (!own ==> Step(st).mem == st.mem && Step(st).disk == st.disk)
      && (own ==> Step(st).mem == Reported(Request(st.mem, st.disk, NextChain(st).value).mem, st.q, Head(st)))
  {
    hide NextChain, Head, Request, Reported;
  }

  lemma ModAdd(u: nat, n: nat)
    ensures ((u + 1) % U16 + n) % U16 == (u + 1 + n) % U16
  {
  }

  lemma ReportedIdx(m: Memory, q: Queue, head: nat)
    requires q.size > 0
    ensures Load(Reported(m, q, head), q.used + 2, 2) == (q.lastUsed + 1) % U16
  {
    hide Load, Store;
    var m2 := Store(Store(m, UsedElem(q, q.lastUsed), 4, head), UsedElem(q, q.lastUsed) + 4, 4, 0);
    assert Pow256(2) == U16;
    LoadStored(m2, q.used + 2, 2, (q.lastUsed + 1) % U16);
  }

  // ---- what a run leaves alone ----

  /** No accepted request of the run has a buffer or its status byte in `[a, a+n)`. */
  ghost predicate RunClear(st: State, target: nat, a: int, n: nat)
    requires Sane(st.q) && target < U16
    decreases Left(st.q.lastAvail, target)
  {
    st.q.lastAvail == target
    || (LeftStep(st.q.lastAvail, target);
        (NextChain(st).Some? ==> Clear(NextChain(st).value, a, n))
        && RunClear(Step(st), target, a, n))
  }

  lemma NextSized(st: State)
    requires st.q.size > 0
    ensures NextChain(st).Some? ==> Sized(NextChain(st).value)
  {
    hide Head, Fetch;
    if NextChain(st).Some? { FetchSized(st.mem, st.q.desc, Head(st), st.q.size, NextChain(st).value); }
  }

  function UsedSpan(q: Queue): nat { 4 + 8 * q.size }

  lemma PastShift(a: int, i: nat, n: nat, x: int)
    requires i + n <= TWO64
    ensures InSpan(a + i, n, x) <==> i <= Past(a, x) < i + n
  {
    var p := Past(a, x);
    var k := (x - a) / TWO64;
    assert x - a == p + TWO64 * k;
    if p >= i {
      PastIs(a + i, x, p - i, k);
    } else {
      PastIs(a + i, x, p - i + TWO64, k - 1);
    }
  }

  lemma PastIs(a: int, x: int, p: int, k: int)
    requires x - a == p + TWO64 * k && 0 <= p < TWO64
    ensures Past(a, x) == p
  {
  }

  /** Two stretches of one span that do not overlap. */
  lemma StretchesApart(a: int, i: nat, m: nat, j: nat, n: nat)
    requires i + m <= j || j + n <= i
    requires i + m <= TWO64 && j + n <= TWO64
    ensures Disjoint(a + i, m, a + j, n)
  {
    hide InSpan, Past;
    var b, c := a + i, a + j;
    forall x | InSpan(b, m, x) ensures !InSpan(c, n, x) {
      PastShift(a, i, m, x);
      PastShift(a, j, n, x);
    }
  }

  lemma StretchInside(a: int, n: nat, i: nat, k: nat, b: int, m: nat)
    requires i + k <= n <= TWO64 && Disjoint(a, n, b, m)
    ensures Disjoint(a + i, k, b, m)
  {
    hide InSpan, Past;
    forall x | InSpan(a + i, k, x) ensures !InSpan(b, m, x) {
      PastShift(a, i, k, x);
      PastShift(a, 0, n, x);
    }
  }

  lemma ElemBound(q: Queue, pos: nat)
    requires q.size > 0
    ensures 4 + 8 * (pos % q.size) + 8 <= UsedSpan(q)
  {
  }

  /** Reporting only writes the used ring. */
  lemma ReportedApart(m: Memory, q: Queue, head: nat, a: int, n: nat)
    requires Sane(q) && n < TWO64 && Disjoint(q.used, UsedSpan(q), a, n)
    ensures Bytes(Reported(m, q, head), a, n) == Bytes(m, a, n)
  {
    hide Bytes, StoreBytes, Digits, Disjoint;
    var e := UsedElem(q, q.lastUsed);
    ElemBound(q, q.lastUsed);
    StretchInside(q.used, UsedSpan(q), 4 + 8 * (q.lastUsed % q.size), 4, a, n);
    StretchInside(q.used, UsedSpan(q), 4 + 8 * (q.lastUsed % q.size) + 4, 4, a, n);
    StretchInside(q.used, UsedSpan(q), 2, 2, a, n);
    var m1 := Store(m, e, 4, head);
    var m2 := Store(m1, e + 4, 4, 0);
    ApartBytes(m, e, Digits(head, 4), a, n);
    ApartBytes(m1, e + 4, Digits(0, 4), a, n);
    ApartBytes(m2, q.used + 2, Digits((q.lastUsed + 1) % U16, 2), a, n);
  }

  /** Memory that is in no buffer of the run, no status byte and not in the used ring is unchanged. */
  lemma {:induction false} DrainFrame(st: State, target: nat, a: int, n: nat)
    requires Sane(st.q) && target < U16 && n < TWO64
    requires RunClear(st, target, a, n) && Disjoint(st.q.used, UsedSpan(st.q), a, n)
    ensures Bytes(Drain(st, target).mem, a, n) == Bytes(st.mem, a, n)
    decreases Left(st.q.lastAvail, target)
  {
    hide Bytes, NextChain, Request, Reported, Disjoint, Clear, Sized;
    if st.q.lastAvail != target {
      LeftStep(st.q.lastAvail, target);
      if NextChain(st).Some? {
        var chain := NextChain(st).value;
        NextSized(st);
        RequestFrame(st.mem, st.disk, chain, a, n);
        ReportedApart(Request(st.mem, st.disk, chain).mem, st.q, Head(st), a, n);
      }
      DrainFrame(Step(st), target, a, n);
    }
  }

  // ---- the avail ring as it was ----

  function AvailSpan(q: Queue): nat { 4 + 2 * q.size }

  lemma PartOf(m: Memory, a: int, n: nat, i: nat, k: nat)
    requires i + k <= n
    ensures Bytes(m, a + i, k) == Bytes(m, a, n)[i..i + k]
  {
  }

  /** Entries are served in ring order, and each head is the ring entry found there before the run. */
  lemma {:induction false} LogReadsRing(st: State, target: nat, k: nat)
    requires Sane(st.q) && target < U16 && k < |Log(st, target)|
    requires RunClear(st, target, st.q.avail, AvailSpan(st.q))
    requires Disjoint(st.q.used, UsedSpan(st.q), st.q.avail, AvailSpan(st.q))
    ensures
      var e := Log(st, target)[k];
      e.head == Load(st.mem, AvailEntry(st.q, e.pos), 2)
      && Left(st.q.lastAvail, e.pos) < Left(st.q.lastAvail, target)
      && (k > 0 ==> Left(st.q.lastAvail, Log(st, target)[k - 1].pos) < Left(st.q.lastAvail, e.pos))
    decreases Left(st.q.lastAvail, target)
  {
    hide Bytes, NextChain, Request, Reported, Disjoint, Clear, Sized, Number, AvailEntry, Left, Load;
    var pos := st.q.lastAvail;
    LeftStep(pos, target);
    StepQueue(st);
    var next := Step(st);
    LeftSelf(pos, target);
    var own := if NextChain(st).Some? then 1 else 0;
    LogInRange(next, target);
    if NextChain(st).Some? {
      var chain := NextChain(st).value;
      NextSized(st);
      RequestFrame(st.mem, st.disk, chain, st.q.avail, AvailSpan(st.q));
      ReportedApart(Request(st.mem, st.disk, chain).mem, st.q, Head(st), st.q.avail, AvailSpan(st.q));
    }
    hide Step;
    assert Bytes(next.mem, st.q.avail, AvailSpan(st.q)) == Bytes(st.mem, st.q.avail, AvailSpan(st.q));
    if k >= own {
      LogReadsRing(next, target, k - own);
      var e := Log(next, target)[k - own];
      assert Log(st, target)[k] == e;
      EntryKept(st.mem, next.mem, st.q, e.pos);
      SameEntry(st.q, next.q, e.pos);
      LeftFrom(pos, e.pos, target);
      if k > own {
        assert Log(st, target)[k - 1] == Log(next, target)[k - own - 1];
        LeftFrom(pos, Log(next, target)[k - own - 1].pos, target);
      }
    }
  }

  lemma LeftSelf(pos: nat, target: nat)
    requires pos < U16 && target < U16 && pos != target
    ensures Left(pos, pos) == 0 < Left(pos, target)
    ensures forall p :: 0 <= p < U16 ==> Left(pos, p) >= 0
  {
  }

  lemma SameEntry(q: Queue, q': Queue, pos: nat)
    requires q.size > 0 && q'.size == q.size && q'.avail == q.avail
    ensures AvailEntry(q', pos) == AvailEntry(q, pos)
  {
  }

  lemma EntryKept(m: Memory, m': Memory, q: Queue, pos: nat)
    requires q.size > 0 && Bytes(m', q.avail, AvailSpan(q)) == Bytes(m, q.avail, AvailSpan(q))
    ensures Load(m', AvailEntry(q, pos), 2) == Load(m, AvailEntry(q, pos), 2)
  {
    hide Bytes, Number;
    PartOf(m, q.avail, AvailSpan(q), 4 + 2 * (pos % q.size), 2);
    PartOf(m', q.avail, AvailSpan(q), 4 + 2 * (pos % q.size), 2);
  }

  lemma LeftFrom(pos: nat, p: nat, target: nat)
    requires pos < U16 && p < U16 && target < U16 && pos != target
    requires Left((pos + 1) % U16, p) < Left((pos + 1) % U16, target)
    ensures Left(pos, p) == Left((pos + 1) % U16, p) + 1 && Left(pos, p) < Left(pos, target)
  {
  }

  lemma {:induction false} LogInRange(st: State, target: nat)
    requires Sane(st.q) && target < U16
    ensures forall e :: e in Log(st, target) ==> e.pos < U16 && e.head < U16
    ensures forall e :: e in Log(st, target) ==> Left(st.q.lastAvail, e.pos) < Left(st.q.lastAvail, target)
    decreases Left(st.q.lastAvail, target)
  {
    hide NextChain, Head, Step;
    if st.q.lastAvail != target {
      LeftStep(st.q.lastAvail, target);
      LogInRange(Step(st), target);
      forall e | e in Log(Step(st), target)
        ensures Left(st.q.lastAvail, e.pos) < Left(st.q.lastAvail, target)
      {
        LeftFrom(st.q.lastAvail, e.pos, target);
      }
    }
  }

  // ---- the used ring as it becomes ----

  function ElemAt(q: Queue, slot: nat): int { q.used + 4 + 8 * slot }

  /** Positions `u .. u+n` all fall outside the slot. */
  ghost predicate Avoids(u: nat, n: nat, size: nat, slot: nat)
    requires size > 0
  {
    forall k :: 0 <= k < n ==> SlotOf(u, k, size) != slot
  }

  function SlotOf(u: nat, k: nat, size: nat): nat
    requires size > 0
  {
    (u + k) % U16 % size
  }

  lemma SlotNext(u: nat, k: nat, size: nat)
    requires size > 0
    ensures SlotOf((u + 1) % U16, k, size) == SlotOf(u, k + 1, size)
  {
    ModAdd(u, k);
    var x, y := ((u + 1) % U16 + k) % U16, (u + (k + 1)) % U16;
    assert x == y;
  }

  lemma {:induction false} ModMultiple(r: nat, size: nat, c: nat)
    requires size > 0
    ensures (r + size * c) % size == r % size
  {
    if c > 0 {
      ModMultiple(r, size, c - 1);
      assert r + size * c == (r + size * (c - 1)) + size;
      ModOnce(r + size * (c - 1), size);
    }
  }

  lemma ModOnce(r: nat, size: nat)
    requires size > 0
    ensures (r + size) % size == r % size
  {
    DivMod(r, size);
    Distributes(r / size + 1, r / size, size);
    DivUnique(r + size, size, r / size + 1, r % size);
  }

  lemma Distributes(x: int, y: int, s: int)
    ensures (x - y) * s == x * s - y * s && (y - x) * s == y * s - x * s
  {
  }

  lemma Grows(d: int, s: nat)
    requires d >= 1
    ensures d * s >= s
  {
  }

  lemma QuotientUnique(x: int, y: int, s: nat, b: int, r: int)
    requires s > 0 && 0 <= b < s && 0 <= r < s && x * s + b == y * s + r
    ensures b == r
  {
    Distributes(x, y, s);
    if x > y { Grows(x - y, s); }
    if x < y { Grows(y - x, s); }
  }

  lemma DivUnique(n: nat, size: nat, quotient: int, r: int)
    requires size > 0 && 0 <= r < size && n == quotient * size + r
    ensures n % size == r
  {
    DivMod(n, size);
    QuotientUnique(n / size, quotient, size, n % size, r);
  }

  lemma DivMod(n: nat, size: nat)
    requires size > 0
    ensures n == (n / size) * size + n % size && 0 <= n % size < size
  {
  }

  /** A step shorter than the ring moves on to another slot. */
  lemma OtherSlot(u: nat, j: nat, size: nat)
    requires 0 < j < size
    ensures (u + j) % size != u % size
  {
    DivMod(u, size);
    var q, r := u / size, u % size;
    if r + j < size {
      DivUnique(u + j, size, q, r + j);
    } else {
      Distributes(q + 1, q, size);
      DivUnique(u + j, size, q + 1, r + j - size);
    }
  }

  /** With a size that divides 2^16 the wrap of the counter does not disturb the ring. */
  lemma SlotPlain(u: nat, k: nat, size: nat)
    requires size > 0 && U16 % size == 0
    ensures SlotOf(u, k, size) == (u + k) % size
  {
    var n, c := u + k, U16 / size;
    assert U16 == size * c;
    assert n == n % U16 + size * c * (n / U16);
    assert size * c * (n / U16) == size * (c * (n / U16));
    ModMultiple(n % U16, size, c * (n / U16));
  }

  /** Of `n` completions counted from `u`, none after the `k`-th goes to its slot. */
  ghost predicate LastThere(u: nat, k: nat, n: nat, size: nat)
    requires size > 0
  {
    forall j: nat :: k < j < n ==> SlotOf(u, j, size) != SlotOf(u, k, size)
  }

  lemma LastNext(u: nat, k: nat, n: nat, size: nat)
    requires size > 0 && k < n && LastThere(u, k, n, size)
    ensures k > 0 ==> LastThere((u + 1) % U16, k - 1, n - 1, size)
    ensures k == 0 ==> Avoids((u + 1) % U16, n - 1, size, SlotOf(u, 0, size))
  {
    hide SlotOf;
    var next := (u + 1) % U16;
    if k > 0 { SlotNext(u, k - 1, size); }
    forall j: nat | k <= j < n - 1 ensures SlotOf(next, j, size) != SlotOf(u, k, size) {
      SlotNext(u, j, size);
    }
  }

  /** No two of at most `size` completions share a slot, when the size divides 2^16 or the counter
      does not wrap. */
  lemma SlotsDiffer(u: nat, k: nat, n: nat, size: nat)
    requires size > 0 && n <= size && k < n && (U16 % size == 0 || u + n <= U16)
    ensures LastThere(u, k, n, size)
  {
    forall j: nat | k < j < n ensures SlotOf(u, j, size) != SlotOf(u, k, size) {
      if U16 % size == 0 {
        SlotPlain(u, j, size);
        SlotPlain(u, k, size);
      }
      OtherSlot(u + k, j - k, size);
    }
  }

  lemma ReportedElsewhere(m: Memory, q: Queue, head: nat, slot: nat)
    requires Sane(q) && slot < q.size && slot != q.lastUsed % q.size
    ensures Bytes(Reported(m, q, head), ElemAt(q, slot), 8) == Bytes(m, ElemAt(q, slot), 8)
  {
    hide Bytes, StoreBytes, Digits, Disjoint;
    var s := q.lastUsed % q.size;
    var e := UsedElem(q, q.lastUsed);
    StretchesApart(q.used, 4 + 8 * s, 4, 4 + 8 * slot, 8);
    StretchesApart(q.used, 4 + 8 * s + 4, 4, 4 + 8 * slot, 8);
    StretchesApart(q.used, 2, 2, 4 + 8 * slot, 8);
    var m1 := Store(m, e, 4, head);
    var m2 := Store(m1, e + 4, 4, 0);
    ApartBytes(m, e, Digits(head, 4), ElemAt(q, slot), 8);
    ApartBytes(m1, e + 4, Digits(0, 4), ElemAt(q, slot), 8);
    ApartBytes(m2, q.used + 2, Digits((q.lastUsed + 1) % U16, 2), ElemAt(q, slot), 8);
  }

  /** The element reporting wrote: the head, and length zero. */
  lemma ReportedHere(m: Memory, q: Queue, head: nat)
    requires Sane(q) && head < U16
    ensures
      var r, e := Reported(m, q, head), UsedElem(q, q.lastUsed);
      Load(r, e, 4) == head && Load(r, e + 4, 4) == 0
  {
    hide Bytes, StoreBytes, Digits, Disjoint, Number;
    assert Pow256(4) == 0x1_0000_0000;
    var s := q.lastUsed % q.size;
    var e := UsedElem(q, q.lastUsed);
    StretchesApart(q.used, 4 + 8 * s + 4, 4, 4 + 8 * s, 4);
    StretchesApart(q.used, 2, 2, 4 + 8 * s, 4);
    StretchesApart(q.used, 2, 2, 4 + 8 * s + 4, 4);
    var m1 := Store(m, e, 4, head);
    var m2 := Store(m1, e + 4, 4, 0);
    LoadStored(m, e, 4, head);
    LoadApart(m1, e + 4, 4, 0, e, 4);
    LoadStored(m1, e + 4, 4, 0);
    LoadApart(m2, q.used + 2, 2, (q.lastUsed + 1) % U16, e, 4);
    LoadApart(m2, q.used + 2, 2, (q.lastUsed + 1) % U16, e + 4, 4);
  }

  /** A used element no entry of the run is reported in stays as it is. */
  lemma {:induction false} ElemKept(st: State, target: nat, slot: nat)
    requires Sane(st.q) && target < U16 && slot < st.q.size
    requires RunClear(st, target, st.q.used, UsedSpan(st.q))
    requires Avoids(st.q.lastUsed, |Log(st, target)|, st.q.size, slot)
    ensures Bytes(Drain(st, target).mem, ElemAt(st.q, slot), 8) == Bytes(st.mem, ElemAt(st.q, slot), 8)
    decreases Left(st.q.lastAvail, target)
  {
    hide Bytes, NextChain, Request, Reported, Disjoint, Clear, Sized, SlotOf, Left, Head;
    if st.q.lastAvail != target {
      LeftStep(st.q.lastAvail, target);
      StepQueue(st);
      var next := Step(st);
      var n := |Log(next, target)|;
      if NextChain(st).Some? {
        var chain := NextChain(st).value;
        var m := Request(st.mem, st.disk, chain).mem;
        NextSized(st);
        RequestFrame(st.mem, st.disk, chain, st.q.used, UsedSpan(st.q));
        PartOf(st.mem, st.q.used, UsedSpan(st.q), 4 + 8 * slot, 8);
        PartOf(m, st.q.used, UsedSpan(st.q), 4 + 8 * slot, 8);
        assert |Log(st, target)| == n + 1;
        SlotIs(st.q.lastUsed, st.q.size);
        assert SlotOf(st.q.lastUsed, 0, st.q.size) != slot;
        ReportedElsewhere(m, st.q, Head(st), slot);
        forall k | 0 <= k < n ensures SlotOf(next.q.lastUsed, k, st.q.size) != slot {
          SlotNext(st.q.lastUsed, k, st.q.size);
        }
      }
      hide Step;
      ElemKept(next, target, slot);
    }
  }

  lemma SlotIs(u: nat, size: nat)
    requires size > 0 && u < U16
    ensures SlotOf(u, 0, size) == u % size
  {
  }

  /** After a run every slot of the used ring that was reported to holds the head last reported
      there, with length zero: for any queue size, any number of completions, wrapping or not. */
  lemma {:induction false} UsedRingHolds(st: State, target: nat, k: nat)
    requires Sane(st.q) && target < U16
    requires RunClear(st, target, st.q.used, UsedSpan(st.q))
    requires k < |Log(st, target)| && LastThere(st.q.lastUsed, k, |Log(st, target)|, st.q.size)
    ensures
      var e := ElemAt(st.q, SlotOf(st.q.lastUsed, k, st.q.size));
      Load(Drain(st, target).mem, e, 4) == Log(st, target)[k].head && Load(Drain(st, target).mem, e + 4, 4) == 0
    decreases Left(st.q.lastAvail, target)
  {
    hide Bytes, NextChain, Request, Reported, Disjoint, Clear, Sized, SlotOf, Left, Head, Number, Avoids, Load;
    LeftStep(st.q.lastAvail, target);
    StepQueue(st);
    var next := Step(st);
    if NextChain(st).None? {
      UsedRingHolds(next, target, k);
    } else {
      LastNext(st.q.lastUsed, k, |Log(st, target)|, st.q.size);
      hide LastThere;
      if k > 0 {
        SlotNext(st.q.lastUsed, k - 1, st.q.size);
        UsedRingHolds(next, target, k - 1);
      } else {
        var chain := NextChain(st).value;
        var slot := SlotOf(st.q.lastUsed, 0, st.q.size);
        SlotIs(st.q.lastUsed, st.q.size);
        ReportedHere(Request(st.mem, st.disk, chain).mem, st.q, Head(st));
        ElemKept(next, target, slot);
        hide Step;
        SameElem(next.mem, Drain(next, target).mem, ElemAt(st.q, slot));
      }
    }
  }

  /** So a run of at most queue-size completions leaves all its heads there, in avail order. */
  lemma UsedRingLists(st: State, target: nat)
    requires Sane(st.q) && target < U16 && RunClear(st, target, st.q.used, UsedSpan(st.q))
    requires |Log(st, target)| <= st.q.size
    requires U16 % st.q.size == 0 || st.q.lastUsed + |Log(st, target)| <= U16
    ensures forall k: nat :: k < |Log(st, target)| ==>
      var e := ElemAt(st.q, SlotOf(st.q.lastUsed, k, st.q.size));
      Load(Drain(st, target).mem, e, 4) == Log(st, target)[k].head && Load(Drain(st, target).mem, e + 4, 4) == 0
  {
    hide Drain, Log, Load, SlotOf, RunClear, LastThere, ElemAt;
    forall k: nat | k < |Log(st, target)|
      ensures
        var e := ElemAt(st.q, SlotOf(st.q.lastUsed, k, st.q.size));
        Load(Drain(st, target).mem, e, 4) == Log(st, target)[k].head && Load(Drain(st, target).mem, e + 4, 4) == 0
    {
      SlotsDiffer(st.q.lastUsed, k, |Log(st, target)|, st.q.size);
      UsedRingHolds(st, target, k);
    }
  }

  lemma SameElem(m: Memory, m': Memory, e: int)
    requires Bytes(m', e, 8) == Bytes(m, e, 8)
    ensures Load(m', e, 4) == Load(m, e, 4) && Load(m', e + 4, 4) == Load(m, e + 4, 4)
  {
    hide Bytes, Number;
    PartOf(m, e, 8, 0, 4);
    PartOf(m', e, 8, 0, 4);
    PartOf(m, e, 8, 4, 4);
    PartOf(m', e, 8, 4, 4);
  }
}
