/** The virtio block queue as a function of the device state: chain fetching, one request,
    one avail entry, and a whole run over the new entries. */
module Virtio {
  import opened Wrappers
  import opened GuestMemory

  /** The whole bytes of the image file; none when it could not be opened. */
  type Disk = Option<seq<byte>>

  const VIRTQ_DESC_SIZE := 16
  const SECTOR_SIZE := 512
  const VIRTIO_BLK_T_IN := 0
  const VIRTIO_BLK_T_OUT := 1
  const VIRTIO_BLK_S_OK := 0
  const VIRTIO_BLK_S_IOERR := 1
  const U16 := 0x10000

  datatype Desc = Desc(addr: int, len: nat, flags: nat, next: nat)
  {
    predicate HasNext() { flags % 2 == 1 }
    predicate Writable() { flags / 2 % 2 == 1 }
  }

  datatype Queue = Queue(size: nat, desc: int, avail: int, used: int, lastAvail: nat, lastUsed: nat, ready: bool)

  function ReadDesc(m: Memory, table: int, idx: nat): Desc {
    var a := table + idx * VIRTQ_DESC_SIZE;
    Desc(Load(m, a, 8), Load(m, a + 8, 4), Load(m, a + 12, 2), Load(m, a + 14, 2))
  }

  // ---- chains ----

  /** The fetch loop with `fuel` iterations left. */
  function Fetch(m: Memory, table: int, idx: nat, fuel: nat): Option<seq<Desc>>
    decreases fuel
  {
    if fuel == 0 then None
    else
      var d := ReadDesc(m, table, idx);
      if !d.HasNext() then Some([d])
      else match Fetch(m, table, d.next, fuel - 1) case None => None case Some(rest) => Some([d] + rest)
  }

  function FetchChain(m: Memory, q: Queue, head: nat): Option<seq<Desc>> {
    if q.desc == 0 then None else Fetch(m, q.desc, head, q.size)
  }

  /** Where `k` links lead from `idx`, whatever the flags say. */
  function Walk(m: Memory, table: int, idx: nat, k: nat): nat
    decreases k
  {
    if k == 0 then idx else Walk(m, table, ReadDesc(m, table, idx).next, k - 1)
  }

  function Nth(m: Memory, table: int, idx: nat, k: nat): Desc { ReadDesc(m, table, Walk(m, table, idx, k)) }

  /** The path from `idx` is exactly `chain`: linked by NEXT up to its last descriptor. */
  predicate IsPath(m: Memory, table: int, idx: nat, chain: seq<Desc>) {
    && chain != []
    && (forall k :: 0 <= k < |chain| ==> chain[k] == Nth(m, table, idx, k))
    && (forall k :: 0 <= k < |chain| - 1 ==> chain[k].HasNext())
    && !chain[|chain| - 1].HasNext()
  }

  /** A fetch succeeds exactly on the paths that end in time, and returns the path. */
  lemma {:induction false} FetchExactly(m: Memory, table: int, idx: nat, fuel: nat, chain: seq<Desc>)
    ensures Fetch(m, table, idx, fuel) == Some(chain) <==> IsPath(m, table, idx, chain) && |chain| <= fuel
    decreases fuel
  {
    hide ReadDesc;
    if chain == [] {
      FetchNonempty(m, table, idx, fuel);
    } else if fuel > 0 {
      var d := ReadDesc(m, table, idx);
      var rest := chain[1..];
      assert Walk(m, table, idx, 0) == idx;
      if d.HasNext() {
        FetchExactly(m, table, d.next, fuel - 1, rest);
        PathStep(m, table, idx, chain);
        assert chain[0] == d ==> chain == [d] + rest;
      } else {
        assert Fetch(m, table, idx, fuel) == Some([d]);
        if |chain| == 1 { assert chain == [chain[0]]; }
      }
    }
  }

  lemma FetchNonempty(m: Memory, table: int, idx: nat, fuel: nat)
    ensures Fetch(m, table, idx, fuel) != Some([])
  {
  }

  lemma PathStep(m: Memory, table: int, idx: nat, chain: seq<Desc>)
    requires chain != [] && ReadDesc(m, table, idx).HasNext()
    ensures IsPath(m, table, idx, chain) <==>
      chain[0] == ReadDesc(m, table, idx) && IsPath(m, table, chain[0].next, chain[1..])
  {
    hide ReadDesc;
    var d, rest := ReadDesc(m, table, idx), chain[1..];
    assert Walk(m, table, idx, 0) == idx;
    if chain[0] == d {
      forall k | 0 <= k < |rest| ensures Nth(m, table, d.next, k) == Nth(m, table, idx, k + 1) && rest[k] == chain[k + 1] {
      }
      if IsPath(m, table, d.next, rest) {
        forall k | 0 <= k < |chain| ensures chain[k] == Nth(m, table, idx, k) {
          if k > 0 { assert rest[k - 1] == Nth(m, table, d.next, k - 1); }
        }
        forall k | 0 <= k < |chain| - 1 ensures chain[k].HasNext() {
          if k > 0 { assert rest[k - 1].HasNext(); }
        }
      }
      if IsPath(m, table, idx, chain) {
        assert |chain| > 1;
      }
    }
  }

  /** A fetch fails exactly when every descriptor within reach asks for another. */
  lemma {:induction false} FetchFails(m: Memory, table: int, idx: nat, fuel: nat)
    ensures Fetch(m, table, idx, fuel) == None <==> forall k :: 0 <= k < fuel ==> Nth(m, table, idx, k).HasNext()
    decreases fuel
  {
    hide ReadDesc;
    if fuel > 0 {
      var d := ReadDesc(m, table, idx);
      assert Walk(m, table, idx, 0) == idx;
      assert Nth(m, table, idx, 0) == d;
      if d.HasNext() {
        FetchFails(m, table, d.next, fuel - 1);
        forall k | 0 <= k < fuel - 1 ensures Nth(m, table, d.next, k) == Nth(m, table, idx, k + 1) {
        }
        if forall k :: 0 <= k < fuel - 1 ==> Nth(m, table, d.next, k).HasNext() {
          forall k | 0 <= k < fuel ensures Nth(m, table, idx, k).HasNext() {
            if k > 0 { assert Nth(m, table, d.next, k - 1).HasNext(); }
          }
        } else {
          var k :| 0 <= k < fuel - 1 && !Nth(m, table, d.next, k).HasNext();
          assert !Nth(m, table, idx, k + 1).HasNext();
        }
      }
    }
  }

  lemma {:induction false} WalkOn(m: Memory, table: int, idx: nat, i: nat, k: nat)
    ensures Walk(m, table, idx, i + k) == Walk(m, table, Walk(m, table, idx, i), k)
    decreases i
  {
    hide ReadDesc;
    if i > 0 { WalkOn(m, table, ReadDesc(m, table, idx).next, i - 1, k); }
  }

  /** From a descriptor that comes round to itself, links only lead round. */
  lemma {:induction false} Round(m: Memory, table: int, idx: nat, i: nat, j: nat, k: nat)
    requires i < j && Walk(m, table, idx, i) == Walk(m, table, idx, j)
    requires forall n :: 0 <= n < j ==> Nth(m, table, idx, n).HasNext()
    ensures Nth(m, table, idx, k).HasNext()
    decreases k
  {
    hide ReadDesc;
    if k >= j {
      WalkOn(m, table, idx, i, k - j);
      WalkOn(m, table, idx, j, k - j);
      Round(m, table, idx, i, j, k - j + i);
    }
  }

  /** Every chain that loops is rejected, however large the queue. */
  lemma CycleRejected(m: Memory, q: Queue, head: nat, i: nat, j: nat)
    requires i < j && Walk(m, q.desc, head, i) == Walk(m, q.desc, head, j)
    requires forall n :: 0 <= n < j ==> Nth(m, q.desc, head, n).HasNext()
    ensures FetchChain(m, q, head) == None
  {
    forall k | 0 <= k < q.size ensures Nth(m, q.desc, head, k).HasNext() {
      Round(m, q.desc, head, i, j, k);
    }
    FetchFails(m, q.desc, head, q.size);
  }

  // ---- one request ----

  predicate Accepted(chain: seq<Desc>) { |chain| >= 2 && chain[0].len >= 16 }

  /** The last writable descriptor after the header among the first `n`; -1 when there is none. */
  function StatusAmong(chain: seq<Desc>, n: nat): (i: int)
    requires n <= |chain|
    ensures i == -1 || (1 <= i < n && chain[i].Writable())
    ensures forall j :: 1 <= j < n && i < j ==> !chain[j].Writable()
  {
    if n <= 1 then -1 else if chain[n - 1].Writable() then n - 1 else StatusAmong(chain, n - 1)
  }

  function StatusIndex(chain: seq<Desc>): (i: int)
    ensures i == -1 || (1 <= i < |chain| && chain[i].Writable())
  {
    StatusAmong(chain, |chain|)
  }

  /** The bytes of the buffers `chain[lo..hi]`, in order. */
  function Gather(m: Memory, chain: seq<Desc>, lo: nat, hi: nat): (s: seq<byte>)
    requires lo <= hi <= |chain|
    ensures |s| == Total(chain, lo, hi)
    decreases hi - lo
  {
    if lo == hi then [] else Bytes(m, chain[lo].addr, chain[lo].len) + Gather(m, chain, lo + 1, hi)
  }

  function Total(chain: seq<Desc>, lo: nat, hi: nat): nat
    requires lo <= hi <= |chain|
    decreases hi - lo
  {
    if lo == hi then 0 else chain[lo].len + Total(chain, lo + 1, hi)
  }

  datatype Scattered = Scattered(mem: Memory, ok: bool)

  /** Spreads `data` over the buffers `chain[lo..hi]`; a buffer that is not writable is still
      filled but ends the copying. */
  function Scatter(m: Memory, chain: seq<Desc>, lo: nat, hi: nat, data: seq<byte>): Scattered
    requires lo <= hi <= |chain| && |data| == Total(chain, lo, hi)
    decreases hi - lo
  {
    if lo == hi then Scattered(m, true)
    else
      var d := chain[lo];
      var m' := StoreBytes(m, d.addr, data[..d.len]);
      if !d.Writable() then Scattered(m', false) else Scatter(m', chain, lo + 1, hi, data[d.len..])
  }

  function Max(a: nat, b: nat): nat { if a > b then a else b }

  function Zeros(n: nat): (s: seq<byte>)
    ensures |s| == n
  {
    seq<byte>(n, _ => 0)
  }

  /** Where a sector starts, in 64-bit arithmetic; `fseek` refuses what is negative as a `long`. */
  function Offset(sector: nat): nat { sector * SECTOR_SIZE % TWO64 }

  predicate Seekable(sector: nat) { Offset(sector) < TWO64 / 2 }

  /** `disk_read`: what is past the end of the image reads as zeros. */
  function DiskBytes(image: seq<byte>, off: nat, n: nat): (s: seq<byte>)
    ensures |s| == n
  {
    seq<byte>(n, i requires 0 <= i < n => if off + i < |image| then image[off + i] else 0)
  }

  /** `disk_write`: the image grows when needed, the gap being zeros. */
  function DiskWritten(image: seq<byte>, off: nat, data: seq<byte>): seq<byte> {
    if data == [] then image
    else
      var grown := image + Zeros(Max(off + |data|, |image|) - |image|);
      grown[..off] + data + grown[off + |data|..]
  }

  datatype Outcome = Outcome(mem: Memory, disk: Disk, ok: bool)

  /** The part of a request between header and status: `hi` is the status descriptor. */
  function Transfer(m: Memory, disk: Disk, chain: seq<Desc>, hi: nat, kind: nat, sector: nat): Outcome
    requires 1 <= hi < |chain|
  {
    var size := Total(chain, 1, hi);
    if kind == VIRTIO_BLK_T_IN then
      if disk.None? || !Seekable(sector) then Outcome(m, disk, false)
      else
        var s := Scatter(m, chain, 1, hi, DiskBytes(disk.value, Offset(sector), size));
        Outcome(s.mem, disk, s.ok)
    else if kind == VIRTIO_BLK_T_OUT then
      if disk.None? || !Seekable(sector) then Outcome(m, disk, false)
      else Outcome(m, Some(DiskWritten(disk.value, Offset(sector), Gather(m, chain, 1, hi))), size % SECTOR_SIZE == 0)
    else Outcome(m, disk, false)
  }

  function Kind(m: Memory, chain: seq<Desc>): nat
    requires chain != []
  {
    Load(m, chain[0].addr, 4)
  }

  function Sector(m: Memory, chain: seq<Desc>): nat
    requires chain != []
  {
    Load(m, chain[0].addr + 8, 8)
  }

  /** A whole accepted request, up to and with its status byte. */
  function Request(m: Memory, disk: Disk, chain: seq<Desc>): Outcome
    requires Accepted(chain)
  {
    var hi := StatusIndex(chain);
    if hi < 1 then Outcome(m, disk, false)
    else
      var t := Transfer(m, disk, chain, hi, Kind(m, chain), Sector(m, chain));
      Outcome(Store(t.mem, chain[hi].addr, 1, if t.ok then VIRTIO_BLK_S_OK else VIRTIO_BLK_S_IOERR), t.disk, t.ok)
  }

  // ---- what a request leaves alone ----

  /** `[a, a+n)` is apart from the status byte and from every data buffer of the chain. */
  ghost predicate Clear(chain: seq<Desc>, a: int, n: nat) {
    var hi := StatusIndex(chain);
    hi >= 1 ==>
      Disjoint(chain[hi].addr, 1, a, n) && forall k :: 1 <= k < hi ==> Disjoint(chain[k].addr, chain[k].len, a, n)
  }

  predicate Sized(chain: seq<Desc>) { forall k :: 0 <= k < |chain| ==> chain[k].len < 0x1_0000_0000 }

  /** A descriptor's length is a 32-bit number. */
  lemma FetchSized(m: Memory, table: int, idx: nat, fuel: nat, chain: seq<Desc>)
    requires Fetch(m, table, idx, fuel) == Some(chain)
    ensures Sized(chain)
  {
    FetchExactly(m, table, idx, fuel, chain);
    hide Load, Walk, Fetch;
    assert Pow256(4) == 0x1_0000_0000;
    forall k | 0 <= k < |chain| ensures chain[k].len < 0x1_0000_0000 {
      assert chain[k] == Nth(m, table, idx, k);
    }
  }

  lemma {:induction false} ScatterApart(m: Memory, chain: seq<Desc>, lo: nat, hi: nat, data: seq<byte>, a: int, n: nat)
    requires lo <= hi <= |chain| && |data| == Total(chain, lo, hi) && Sized(chain) && n < TWO64
    requires forall k :: lo <= k < hi ==> Disjoint(chain[k].addr, chain[k].len, a, n)
    ensures Bytes(Scatter(m, chain, lo, hi, data).mem, a, n) == Bytes(m, a, n)
    decreases hi - lo
  {
    hide StoreBytes, Bytes, Disjoint;
    if lo < hi {
      var d := chain[lo];
      ApartBytes(m, d.addr, data[..d.len], a, n);
      if d.Writable() {
        ScatterApart(StoreBytes(m, d.addr, data[..d.len]), chain, lo + 1, hi, data[d.len..], a, n);
      }
    }
  }

  /** Memory outside a request's own buffers and status byte is unchanged. */
  lemma RequestFrame(m: Memory, disk: Disk, chain: seq<Desc>, a: int, n: nat)
    requires Accepted(chain) && Sized(chain) && n < TWO64 && Clear(chain, a, n)
    ensures Bytes(Request(m, disk, chain).mem, a, n) == Bytes(m, a, n)
  {
    hide Bytes, StoreBytes, Disjoint, Scatter, Gather, Load, Digits, DiskBytes, DiskWritten, Offset, Seekable;
    var hi := StatusIndex(chain);
    if hi >= 1 {
      var t := Transfer(m, disk, chain, hi, Kind(m, chain), Sector(m, chain));
      if Kind(m, chain) == VIRTIO_BLK_T_IN && disk.Some? && Seekable(Sector(m, chain)) {
        ScatterApart(m, chain, 1, hi, DiskBytes(disk.value, Offset(Sector(m, chain)), Total(chain, 1, hi)), a, n);
      }
      ApartBytes(t.mem, chain[hi].addr, Digits(if t.ok then 0 else 1, 1), a, n);
    }
  }

  // ---- data written and read back ----

  ghost predicate Apart(chain: seq<Desc>, lo: nat, hi: nat) {
    forall i, j :: lo <= i < j < hi <= |chain| ==> Disjoint(chain[i].addr, chain[i].len, chain[j].addr, chain[j].len)
  }

  predicate AllWritable(chain: seq<Desc>, lo: nat, hi: nat)
    requires lo <= hi <= |chain|
  {
    forall k :: lo <= k < hi ==> chain[k].Writable()
  }

  lemma ApartFlipped(chain: seq<Desc>, lo: nat, hi: nat)
    requires Apart(chain, lo, hi) && lo < hi <= |chain|
    ensures forall k :: lo + 1 <= k < hi ==> Disjoint(chain[k].addr, chain[k].len, chain[lo].addr, chain[lo].len)
  {
    hide InSpan;
    forall k | lo + 1 <= k < hi ensures Disjoint(chain[k].addr, chain[k].len, chain[lo].addr, chain[lo].len) {
      assert Disjoint(chain[lo].addr, chain[lo].len, chain[k].addr, chain[k].len);
    }
  }

  /** What is spread over buffers that do not overlap is gathered from them again. */
  lemma {:induction false} GatherScattered(m: Memory, chain: seq<Desc>, lo: nat, hi: nat, data: seq<byte>)
    requires lo <= hi <= |chain| && |data| == Total(chain, lo, hi) && Sized(chain) && Apart(chain, lo, hi)
    ensures Scatter(m, chain, lo, hi, data).ok <==> AllWritable(chain, lo, hi)
    ensures Scatter(m, chain, lo, hi, data).ok ==> Gather(Scatter(m, chain, lo, hi, data).mem, chain, lo, hi) == data
    decreases hi - lo
  {
    hide Bytes, StoreBytes, Disjoint;
    if lo < hi {
      var d := chain[lo];
      var first, rest := data[..d.len], data[d.len..];
      if d.Writable() {
        var m' := StoreBytes(m, d.addr, first);
        StoredBytes(m, d.addr, first);
        GatherScattered(m', chain, lo + 1, hi, rest);
        ApartFlipped(chain, lo, hi);
        ScatterApart(m', chain, lo + 1, hi, rest, d.addr, d.len);
        assert first + rest == data;
      }
    }
  }

  lemma {:induction false} GatherKept(m: Memory, m': Memory, chain: seq<Desc>, lo: nat, hi: nat)
    requires lo <= hi <= |chain|
    requires forall k :: lo <= k < hi ==> Bytes(m', chain[k].addr, chain[k].len) == Bytes(m, chain[k].addr, chain[k].len)
    ensures Gather(m', chain, lo, hi) == Gather(m, chain, lo, hi)
    decreases hi - lo
  {
    hide Bytes;
    if lo < hi { GatherKept(m, m', chain, lo + 1, hi); }
  }

  lemma ReadWritten(image: seq<byte>, off: nat, data: seq<byte>)
    ensures DiskBytes(DiskWritten(image, off, data), off, |data|) == data
  {
  }

  lemma ReadElsewhere(image: seq<byte>, off: nat, data: seq<byte>, off': nat, n: nat)
    requires off + |data| <= off' || off' + n <= off
    ensures DiskBytes(DiskWritten(image, off, data), off', n) == DiskBytes(image, off', n)
  {
  }

  /** A request the device serves, with guest memory as it is at that time. */
  datatype Job = Job(mem: Memory, chain: seq<Desc>)

  predicate Misses(j: Job, off: nat, n: nat)
    requires Accepted(j.chain)
  {
    Kind(j.mem, j.chain) == VIRTIO_BLK_T_OUT && StatusIndex(j.chain) >= 1 ==>
      var start := Offset(Sector(j.mem, j.chain));
      start + Total(j.chain, 1, StatusIndex(j.chain)) <= off || off + n <= start
  }

  function DiskAfter(disk: Disk, jobs: seq<Job>): Disk
    requires forall j :: j in jobs ==> Accepted(j.chain)
    decreases |jobs|
  {
    if jobs == [] then disk else DiskAfter(Request(jobs[0].mem, disk, jobs[0].chain).disk, jobs[1..])
  }

  lemma JobKeeps(image: seq<byte>, j: Job, off: nat, n: nat)
    requires Accepted(j.chain) && Misses(j, off, n)
    ensures
      var d := Request(j.mem, Some(image), j.chain).disk;
      d.Some? && DiskBytes(d.value, off, n) == DiskBytes(image, off, n)
  {
    hide Load, Bytes, Scatter, DiskBytes, DiskWritten, Offset, StoreBytes, Digits;
    var hi := StatusIndex(j.chain);
    if hi >= 1 && Kind(j.mem, j.chain) == VIRTIO_BLK_T_OUT {
      ReadElsewhere(image, Offset(Sector(j.mem, j.chain)), Gather(j.mem, j.chain, 1, hi), off, n);
    }
  }

  lemma {:induction false} JobsKeep(image: seq<byte>, jobs: seq<Job>, off: nat, n: nat)
    requires forall j :: j in jobs ==> Accepted(j.chain) && Misses(j, off, n)
    ensures
      var d := DiskAfter(Some(image), jobs);
      d.Some? && DiskBytes(d.value, off, n) == DiskBytes(image, off, n)
    decreases |jobs|
  {
    hide Misses, Accepted, Request, DiskBytes;
    if jobs != [] {
      JobKeeps(image, jobs[0], off, n);
      JobsKeep(Request(jobs[0].mem, Some(image), jobs[0].chain).disk.value, jobs[1..], off, n);
    }
  }

  /** An OUT that reports success, then any requests that write elsewhere, then an IN of the
      same sectors: the IN succeeds when its buffers are writable, and then the buffers hold
      the bytes written, whatever the two buffer lists look like. */
  lemma DataRoundTrip(m1: Memory, disk: Disk, c1: seq<Desc>, jobs: seq<Job>, m2: Memory, c2: seq<Desc>)
    requires Accepted(c1) && Accepted(c2) && Sized(c2)
    requires Kind(m1, c1) == VIRTIO_BLK_T_OUT && Request(m1, disk, c1).ok
    requires Kind(m2, c2) == VIRTIO_BLK_T_IN && Sector(m2, c2) == Sector(m1, c1) && StatusIndex(c2) >= 1
    requires Total(c2, 1, StatusIndex(c2)) == Total(c1, 1, StatusIndex(c1))
    requires Apart(c2, 1, StatusIndex(c2))
    requires forall k :: 1 <= k < StatusIndex(c2) ==> Disjoint(c2[StatusIndex(c2)].addr, 1, c2[k].addr, c2[k].len)
    requires forall j :: j in jobs ==>
      Accepted(j.chain) && Misses(j, Offset(Sector(m1, c1)), Total(c1, 1, StatusIndex(c1)))
    ensures
      var last := Request(m2, DiskAfter(Request(m1, disk, c1).disk, jobs), c2);
      (last.ok <==> AllWritable(c2, 1, StatusIndex(c2)))
      && (last.ok ==> Gather(last.mem, c2, 1, StatusIndex(c2)) == Gather(m1, c1, 1, StatusIndex(c1)))
  {
    hide Load, Bytes, Disjoint, DiskBytes, DiskWritten, Offset, Seekable, StoreBytes, Digits, Scatter, Gather;
    hide Misses, DiskAfter, Apart, AllWritable;
    var off, data := Offset(Sector(m1, c1)), Gather(m1, c1, 1, StatusIndex(c1));
    var image := DiskWritten(disk.value, off, data);
    assert Request(m1, disk, c1).disk == Some(image);
    ReadWritten(disk.value, off, data);
    JobsKeep(image, jobs, off, |data|);
    var s := Scatter(m2, c2, 1, StatusIndex(c2), data);
    GatherScattered(m2, c2, 1, StatusIndex(c2), data);
    var status := if s.ok then VIRTIO_BLK_S_OK else VIRTIO_BLK_S_IOERR;
    StatusApart(s.mem, c2, status);
  }

  lemma StatusApart(m: Memory, c: seq<Desc>, status: nat)
    requires StatusIndex(c) >= 1 && Sized(c)
    requires forall k :: 1 <= k < StatusIndex(c) ==> Disjoint(c[StatusIndex(c)].addr, 1, c[k].addr, c[k].len)
    ensures Gather(Store(m, c[StatusIndex(c)].addr, 1, status), c, 1, StatusIndex(c)) == Gather(m, c, 1, StatusIndex(c))
  {
    hide Bytes, Disjoint, StoreBytes, Digits;
    var a := c[StatusIndex(c)].addr;
    forall k | 1 <= k < StatusIndex(c)
      ensures Bytes(Store(m, a, 1, status), c[k].addr, c[k].len) == Bytes(m, c[k].addr, c[k].len)
    {
      ApartBytes(m, a, Digits(status, 1), c[k].addr, c[k].len);
    }
    GatherKept(m, Store(m, a, 1, status), c, 1, StatusIndex(c));
  }
}
