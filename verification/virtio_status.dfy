/** What the driver sees: the status byte of each request, and the layout both sides read. */
module VirtioStatus {
  import opened Wrappers
  import opened GuestMemory
  import opened Virtio
  import opened VirtioQueue
  import VirtioFailures

  // ---- one request ----

  /** Why a request succeeds: an image and a byte offset below 2^63, and either an IN (0) whose data buffers the
      device may all write, or an OUT (1) of whole 512-byte sectors. */
  predicate Succeeds(m: Memory, disk: Disk, chain: seq<Desc>)
    requires Accepted(chain) && StatusIndex(chain) >= 1
  {
    var kind, sector := Load(m, chain[0].addr, 4), Load(m, chain[0].addr + 8, 8);
    && disk.Some? && sector * 512 % 0x1_0000_0000_0000_0000 < 0x8000_0000_0000_0000
    && ((kind == 0 && forall k :: 1 <= k < StatusIndex(chain) ==> chain[k].flags / 2 % 2 == 1)
        || (kind == 1 && Total(chain, 1, StatusIndex(chain)) % 512 == 0))
  }

  /** The status byte is 0 exactly for a request that succeeds, and 1 for every other. */
  lemma StatusReported(m: Memory, disk: Disk, chain: seq<Desc>)
    requires Accepted(chain) && StatusIndex(chain) >= 1
    ensures
      var r := Request(m, disk, chain);
      Load(r.mem, chain[StatusIndex(chain)].addr, 1) == (if Succeeds(m, disk, chain) then 0 else 1)
      && (r.ok <==> Succeeds(m, disk, chain))
  {
    hide Load, Bytes, Scatter, Gather, DiskBytes, DiskWritten, StoreBytes, Digits, Total;
    var hi := StatusIndex(chain);
    if disk.Some? {
      VirtioFailures.ScatterOk(m, chain, 1, hi,
        DiskBytes(disk.value, Offset(Sector(m, chain)), Total(chain, 1, hi)));
    }
    var t := Transfer(m, disk, chain, hi, Kind(m, chain), Sector(m, chain));
    assert Pow256(1) == 256;
    LoadStored(t.mem, chain[hi].addr, 1, if t.ok then 0 else 1);
    assert t.ok <==> Succeeds(m, disk, chain);
  }

  /** An avail entry is served exactly when the descriptors linked from its head by NEXT end within the queue size,
      are two at least, and the first holds a whole sixteen-byte header; it is served by those descriptors. */
  lemma ServedExactly(st: State, chain: seq<Desc>)
    requires Sane(st.q)
    ensures NextChain(st) == Some(chain) <==>
      (st.q.desc != 0 && IsPath(st.mem, st.q.desc, Head(st), chain) && |chain| <= st.q.size
       && |chain| >= 2 && chain[0].len >= 16)
  {
    hide Fetch, IsPath, Head;
    FetchExactly(st.mem, st.q.desc, Head(st), st.q.size, chain);
  }

  /** The image after a write: as long as before or as the write needs, the data at the offset, everything else as
      before, and zeros where there was nothing. */
  lemma ImageBytes(image: seq<byte>, off: nat, data: seq<byte>, i: nat)
    requires data != []
    ensures
      var r := DiskWritten(image, off, data);
      |r| == (if off + |data| > |image| then off + |data| else |image|)
      && (i < |r| ==> r[i] == if off <= i < off + |data| then data[i - off] else if i < |image| then image[i] else 0)
  {
  }

  // ---- a run ----

  /** The state after `n` passes of the loop. */
  function After(st: State, n: nat): (r: State)
    requires Sane(st.q)
    ensures Sane(r.q)
  {
    if n == 0 then st else Step(After(st, n - 1))
  }

  lemma {:induction false} DrainAfter(st: State, target: nat, n: nat)
    requires Sane(st.q) && target < U16 && n <= Left(st.q.lastAvail, target)
    ensures Drain(After(st, n), target) == Drain(st, target)
    ensures Left(After(st, n).q.lastAvail, target) == Left(st.q.lastAvail, target) - n
  {
    hide Step;
    if n > 0 {
      DrainAfter(st, target, n - 1);
      LeftStep(After(st, n - 1).q.lastAvail, target);
    }
  }

  lemma {:induction false} AfterQueue(st: State, n: nat)
    requires Sane(st.q)
    ensures After(st, n).q.used == st.q.used && After(st, n).q.size == st.q.size
  {
    hide Step;
    if n > 0 {
      AfterQueue(st, n - 1);
      StepQueue(After(st, n - 1));
    }
  }

  lemma SameByte(m: Memory, m': Memory, a: int)
    requires Bytes(m', a, 1) == Bytes(m, a, 1)
    ensures Load(m', a, 1) == Load(m, a, 1)
  {
    hide Bytes;
  }

  /** After a whole run the status byte of the request served in pass `n` says how that request went, as memory
      and disk were when it was served, unless a later request or the used ring is laid over it. */
  lemma RunReported(st: State, target: nat, n: nat, chain: seq<Desc>)
    requires Sane(st.q) && target < U16 && n < Left(st.q.lastAvail, target)
    requires NextChain(After(st, n)) == Some(chain) && StatusIndex(chain) >= 1
    requires RunClear(After(st, n + 1), target, chain[StatusIndex(chain)].addr, 1)
    requires Disjoint(st.q.used, UsedSpan(st.q), chain[StatusIndex(chain)].addr, 1)
    ensures Load(Drain(st, target).mem, chain[StatusIndex(chain)].addr, 1)
      == if Succeeds(After(st, n).mem, After(st, n).disk, chain) then 0 else 1
  {
    hide Load, Bytes, NextChain, Request, Reported, Disjoint, Step, Drain, Succeeds, RunClear, Head;
    var at, a := After(st, n), chain[StatusIndex(chain)].addr;
    DrainAfter(st, target, n + 1);
    AfterQueue(st, n);
    AfterQueue(st, n + 1);
    StepQueue(at);
    StatusReported(at.mem, at.disk, chain);
    ReportedApart(Request(at.mem, at.disk, chain).mem, at.q, Head(at), a, 1);
    DrainFrame(Step(at), target, a, 1);
    SameByte(Request(at.mem, at.disk, chain).mem, Drain(st, target).mem, a);
  }

  // ---- the layout ----

  /** Numbers are little-endian. */
  lemma LittleEndian(m: Memory, a: int)
    ensures Load(m, a, 1) == Byte(m, a)
    ensures Load(m, a, 2) == Byte(m, a) + 0x100 * Byte(m, a + 1)
    ensures Load(m, a, 4) == Byte(m, a) + 0x100 * Byte(m, a + 1) + 0x1_0000 * Byte(m, a + 2) + 0x100_0000 * Byte(m, a + 3)
  {
    NumberStep(m, a, 4);
    NumberStep(m, a + 1, 3);
    NumberStep(m, a + 2, 2);
    NumberStep(m, a + 3, 1);
    NumberStep(m, a, 2);
    NumberStep(m, a + 1, 1);
    NumberStep(m, a, 1);
    hide Load, Byte;
  }

  lemma LittleEndianWide(m: Memory, a: int)
    ensures Load(m, a, 8) == Load(m, a, 4) + 0x1_0000_0000 * Load(m, a + 4, 4)
  {
    LittleEndian(m, a);
    NumberStep(m, a, 8);
    NumberStep(m, a + 1, 7);
    NumberStep(m, a + 2, 6);
    NumberStep(m, a + 3, 5);
    hide Load, Byte;
  }

  lemma NumberStep(m: Memory, a: int, n: nat)
    requires n > 0
    ensures Load(m, a, n) == Byte(m, a) + 0x100 * Load(m, a + 1, n - 1)
    ensures Load(m, a + 1, 0) == 0
  {
    assert Bytes(m, a, n)[1..] == Bytes(m, a + 1, n - 1);
  }

  /** A memory whose bytes at `a` are the number, as a driver stores it. */
  predicate Holds(m: Memory, a: int, n: nat, v: nat) { Bytes(m, a, n) == Digits(v, n) }

  lemma HeldLoads(m: Memory, a: int, n: nat, v: nat)
    requires Holds(m, a, n, v) && v < Pow256(n)
    ensures Load(m, a, n) == v
  {
    hide Bytes;
    DigitsNumber(v, n);
  }

  lemma StoredHolds(m: Memory, a: int, n: nat, v: nat)
    requires n < TWO64
    ensures Holds(Store(m, a, n, v), a, n, v)
  {
    hide Bytes, StoreBytes;
    StoredBytes(m, a, Digits(v, n));
  }

  lemma Widths()
    ensures Pow256(2) == 0x1_0000 && Pow256(4) == 0x1_0000_0000 && Pow256(8) == 0x1_0000_0000_0000_0000
  {
  }

  /** A descriptor as section 2.6.5 of the Virtual I/O Device specification, version 1.1, lays it out: sixteen
      bytes, address, length, flags and next. */
  lemma DescriptorLayout(m: Memory, table: int, idx: nat, addr: nat, len: nat, flags: nat, next: nat)
    requires addr < 0x1_0000_0000_0000_0000 && len < 0x1_0000_0000 && flags < 0x1_0000 && next < 0x1_0000
    requires Holds(m, table + 16 * idx, 8, addr) && Holds(m, table + 16 * idx + 8, 4, len)
    requires Holds(m, table + 16 * idx + 12, 2, flags) && Holds(m, table + 16 * idx + 14, 2, next)
    ensures ReadDesc(m, table, idx) == Desc(addr, len, flags, next)
  {
    hide Load, Holds;
    Widths();
    HeldLoads(m, table + 16 * idx, 8, addr);
    HeldLoads(m, table + 16 * idx + 8, 4, len);
    HeldLoads(m, table + 16 * idx + 12, 2, flags);
    HeldLoads(m, table + 16 * idx + 14, 2, next);
  }

  /** A request header as section 5.2.6 lays it out: type, four reserved bytes, sector; sectors of 512 bytes. */
  lemma HeaderLayout(m: Memory, chain: seq<Desc>, kind: nat, sector: nat)
    requires chain != [] && kind < 0x1_0000_0000 && sector < 0x1_0000_0000_0000_0000
    requires Holds(m, chain[0].addr, 4, kind) && Holds(m, chain[0].addr + 8, 8, sector)
    ensures Kind(m, chain) == kind && Sector(m, chain) == sector
    ensures Seekable(sector) && sector < 0x80_0000_0000_0000 ==> Offset(sector) == 512 * sector
  {
    hide Load, Holds;
    Widths();
    HeldLoads(m, chain[0].addr, 4, kind);
    HeldLoads(m, chain[0].addr + 8, 8, sector);
  }

  /** The avail ring, section 2.6.6: flags, idx, then the heads, two bytes each. */
  lemma AvailLayout(st: State, idx: nat, head: nat)
    requires Sane(st.q) && idx < 0x1_0000 && head < 0x1_0000
    requires Holds(st.mem, st.q.avail + 2, 2, idx)
    requires Holds(st.mem, st.q.avail + 4 + 2 * (st.q.lastAvail % st.q.size), 2, head)
    ensures AvailIdx(st) == idx && Head(st) == head
  {
    hide Load, Holds;
    Widths();
    HeldLoads(st.mem, st.q.avail + 2, 2, idx);
    HeldLoads(st.mem, st.q.avail + 4 + 2 * (st.q.lastAvail % st.q.size), 2, head);
  }

  /** The used ring, section 2.6.8: flags, idx, then elements of eight bytes, head and length. */
  lemma UsedLayout(m: Memory, q: Queue, head: nat)
    requires Sane(q) && head < 0x1_0000
    ensures
      var r := Reported(m, q, head);
      Load(r, q.used + 2, 2) == (q.lastUsed + 1) % 0x1_0000
      && Load(r, q.used + 4 + 8 * (q.lastUsed % q.size), 4) == head
      && Load(r, q.used + 8 + 8 * (q.lastUsed % q.size), 4) == 0
  {
    hide Load, Reported;
    ReportedIdx(m, q, head);
    ReportedHere(m, q, head);
  }
}
