/** What a request reported as failed does all the same. */
module VirtioFailures {
  import opened Wrappers
  import opened GuestMemory
  import opened Virtio

  // ---- an OUT that fails after writing ----

  /** An OUT with an image and a status descriptor whose size is no multiple of a sector. */
  predicate ErrorWrites(m: Memory, disk: Disk, chain: seq<Desc>)
    requires Accepted(chain)
  {
    && Kind(m, chain) == VIRTIO_BLK_T_OUT && StatusIndex(chain) >= 1 && disk.Some? && Seekable(Sector(m, chain))
    && Total(chain, 1, StatusIndex(chain)) % SECTOR_SIZE != 0
  }

  /** Writing bytes the image holds there already changes nothing, and only that. */
  lemma WriteChanges(image: seq<byte>, off: nat, data: seq<byte>)
    ensures DiskWritten(image, off, data) == image <==>
      data == [] || (off + |data| <= |image| && image[off..off + |data|] == data)
  {
    if data != [] && off + |data| <= |image| {
      assert image + Zeros(0) == image;
      assert DiskWritten(image, off, data) == image[..off] + data + image[off + |data|..];
      assert DiskWritten(image, off, data)[off..off + |data|] == data;
      assert image == image[..off] + image[off..off + |data|] + image[off + |data|..];
    } else if data != [] {
      assert |DiskWritten(image, off, data)| == off + |data|;
    }
  }

  /** A request that reports an error changes the image exactly when it is such an OUT and its bytes
      are not the image's already; the whole of its data is written then. */
  lemma ErrorWritesExactly(m: Memory, disk: Disk, chain: seq<Desc>)
    requires Accepted(chain)
    ensures
      var r := Request(m, disk, chain);
      (ErrorWrites(m, disk, chain) ==>
        var off, data := Offset(Sector(m, chain)), Gather(m, chain, 1, StatusIndex(chain));
        !r.ok && r.disk == Some(DiskWritten(disk.value, off, data)))
      && (!r.ok && r.disk != disk <==>
        ErrorWrites(m, disk, chain) &&
        var off, data := Offset(Sector(m, chain)), Gather(m, chain, 1, StatusIndex(chain));
        off + |data| > |disk.value| || disk.value[off..off + |data|] != data)
  {
    hide Load, Bytes, Scatter, Gather, DiskBytes, DiskWritten, Offset, Seekable, StoreBytes, Digits, Total;
    if ErrorWrites(m, disk, chain) {
      WriteChanges(disk.value, Offset(Sector(m, chain)), Gather(m, chain, 1, StatusIndex(chain)));
    }
  }

  // ---- an IN that fails after filling a buffer the driver offered for reading ----

  /** The disk's bytes reach buffer `k`: every buffer before it is writable, it need not be. */
  predicate Fills(m: Memory, disk: Disk, chain: seq<Desc>, k: nat)
    requires Accepted(chain) && 1 <= k < StatusIndex(chain)
  {
    && Kind(m, chain) == VIRTIO_BLK_T_IN && disk.Some? && Seekable(Sector(m, chain))
    && AllWritable(chain, 1, k)
  }

  /** Buffer `k` shares no byte with another data buffer or the status byte. */
  ghost predicate Alone(chain: seq<Desc>, k: nat)
    requires Accepted(chain) && 1 <= k < StatusIndex(chain)
  {
    && Disjoint(chain[StatusIndex(chain)].addr, 1, chain[k].addr, chain[k].len)
    && forall j :: 1 <= j < StatusIndex(chain) && j != k ==>
      Disjoint(chain[j].addr, chain[j].len, chain[k].addr, chain[k].len)
  }

  lemma {:induction false} ScatteredAt(m: Memory, chain: seq<Desc>, lo: nat, hi: nat, data: seq<byte>, k: nat)
    requires lo <= k < hi <= |chain| && |data| == Total(chain, lo, hi) && Sized(chain)
    requires forall j :: lo <= j < hi && j != k ==> Disjoint(chain[j].addr, chain[j].len, chain[k].addr, chain[k].len)
    ensures 0 <= Total(chain, lo, k) <= Total(chain, lo, k) + chain[k].len <= |data|
    ensures Bytes(Scatter(m, chain, lo, hi, data).mem, chain[k].addr, chain[k].len)
      == (if AllWritable(chain, lo, k) then data[Total(chain, lo, k)..Total(chain, lo, k) + chain[k].len]
          else Bytes(m, chain[k].addr, chain[k].len))
    decreases hi - lo
  {
    hide Bytes, StoreBytes, Disjoint, AllWritable;
    var d := chain[lo];
    var m' := StoreBytes(m, d.addr, data[..d.len]);
    if lo == k {
      FirstWritable(chain, lo, k);
      StoredBytes(m, d.addr, data[..d.len]);
      if d.Writable() { ScatterApart(m', chain, lo + 1, hi, data[d.len..], d.addr, d.len); }
    } else {
      ApartBytes(m, d.addr, data[..d.len], chain[k].addr, chain[k].len);
      ScatteredAt(m', chain, lo + 1, hi, data[d.len..], k);
      Further(data, d.len, Total(chain, lo + 1, k), chain[k].len);
      FirstWritable(chain, lo, k);
    }
  }

  lemma Further(data: seq<byte>, n: nat, t: nat, len: nat)
    requires n + t + len <= |data|
    ensures data[n..][t..t + len] == data[n + t..n + t + len]
  {
  }

  lemma FirstWritable(chain: seq<Desc>, lo: nat, k: nat)
    requires lo <= k < |chain|
    ensures AllWritable(chain, lo, k) <==> lo == k || (chain[lo].Writable() && AllWritable(chain, lo + 1, k))
  {
  }

  lemma DiskPart(image: seq<byte>, off: nat, n: nat, i: nat, len: nat)
    requires i + len <= n
    ensures DiskBytes(image, off, n)[i..i + len] == DiskBytes(image, off + i, len)
  {
  }

  /** What every request leaves in each of its data buffers, writable or not. */
  lemma BufferAfter(m: Memory, disk: Disk, chain: seq<Desc>, k: nat)
    requires Accepted(chain) && Sized(chain) && 1 <= k < StatusIndex(chain) && Alone(chain, k)
    ensures Bytes(Request(m, disk, chain).mem, chain[k].addr, chain[k].len)
      == (if Fills(m, disk, chain, k)
          then DiskBytes(disk.value, Offset(Sector(m, chain)) + Total(chain, 1, k), chain[k].len)
          else Bytes(m, chain[k].addr, chain[k].len))
  {
    hide Bytes, StoreBytes, Disjoint, Scatter, Gather, Load, Digits, DiskBytes, DiskWritten, Offset, Seekable, AllWritable;
    var hi := StatusIndex(chain);
    var t := Transfer(m, disk, chain, hi, Kind(m, chain), Sector(m, chain));
    ApartBytes(t.mem, chain[hi].addr, Digits(if t.ok then 0 else 1, 1), chain[k].addr, chain[k].len);
    if Kind(m, chain) == VIRTIO_BLK_T_IN && disk.Some? && Seekable(Sector(m, chain)) {
      var off, size := Offset(Sector(m, chain)), Total(chain, 1, hi);
      ScatteredAt(m, chain, 1, hi, DiskBytes(disk.value, off, size), k);
      DiskPart(disk.value, off, size, Total(chain, 1, k), chain[k].len);
    }
  }

  lemma {:induction false} ScatterOk(m: Memory, chain: seq<Desc>, lo: nat, hi: nat, data: seq<byte>)
    requires lo <= hi <= |chain| && |data| == Total(chain, lo, hi)
    ensures Scatter(m, chain, lo, hi, data).ok <==> AllWritable(chain, lo, hi)
    decreases hi - lo
  {
    hide StoreBytes;
    if lo < hi && chain[lo].Writable() {
      ScatterOk(StoreBytes(m, chain[lo].addr, data[..chain[lo].len]), chain, lo + 1, hi, data[chain[lo].len..]);
    }
  }

  /** Some buffer the driver offered for reading is filled exactly when a readable image meets an IN
      whose data buffers are not all writable; it is the last one filled, and the request reports an error. */
  lemma ReadOnlyFilled(m: Memory, disk: Disk, chain: seq<Desc>)
    requires Accepted(chain) && StatusIndex(chain) >= 1
    ensures (exists k :: 1 <= k < StatusIndex(chain) && Fills(m, disk, chain, k) && !chain[k].Writable())
      <==> Kind(m, chain) == VIRTIO_BLK_T_IN && disk.Some? && Seekable(Sector(m, chain))
           && !AllWritable(chain, 1, StatusIndex(chain))
    ensures forall k :: (1 <= k < StatusIndex(chain) && Fills(m, disk, chain, k) && !chain[k].Writable()) ==>
      !Request(m, disk, chain).ok && forall j :: (1 <= j < StatusIndex(chain) && Fills(m, disk, chain, j)) ==> j <= k
  {
    hide Load, Bytes, Scatter, DiskBytes, DiskWritten, Offset, Seekable, StoreBytes, Digits, Gather, Total;
    var hi := StatusIndex(chain);
    if Kind(m, chain) == VIRTIO_BLK_T_IN && disk.Some? && Seekable(Sector(m, chain)) {
      ScatterOk(m, chain, 1, hi, DiskBytes(disk.value, Offset(Sector(m, chain)), Total(chain, 1, hi)));
      if !AllWritable(chain, 1, hi) {
        var k := FirstReadOnly(chain, 1, hi);
        assert Fills(m, disk, chain, k);
      }
    }
  }

  lemma {:induction false} FirstReadOnly(chain: seq<Desc>, lo: nat, hi: nat) returns (k: nat)
    requires lo <= hi <= |chain| && !AllWritable(chain, lo, hi)
    ensures lo <= k < hi && AllWritable(chain, lo, k) && !chain[k].Writable()
    decreases hi - lo
  {
    if chain[lo].Writable() { k := FirstReadOnly(chain, lo + 1, hi); } else { k := lo; }
  }

  // ---- both at work ----

  /** A header at 0, one data byte at 100 that the device may only read, a status byte at 200. */
  const SHORT_CHAIN := [Desc(0, 16, 1, 1), Desc(100, 1, 1, 2), Desc(200, 1, 2, 0)]

  /** Such a request for sector 0, with 7 in the data byte. */
  function ShortMemory(kind: nat): Memory { Store(Store(Store(map[], 8, 8, 0), 0, 4, kind), 100, 1, 7) }

  lemma ShortChain()
    ensures Accepted(SHORT_CHAIN) && Sized(SHORT_CHAIN) && StatusIndex(SHORT_CHAIN) == 2 && Alone(SHORT_CHAIN, 1)
    ensures Total(SHORT_CHAIN, 1, 2) == 1 && Total(SHORT_CHAIN, 1, 1) == 0
  {
  }

  lemma ShortHeader(kind: nat)
    requires kind < 2
    ensures Load(ShortMemory(kind), 0, 4) == kind && Load(ShortMemory(kind), 8, 8) == 0
  {
    hide Load, StoreBytes, Bytes, Digits;
    var m1 := Store(map[], 8, 8, 0);
    var m2 := Store(m1, 0, 4, kind);
    assert Pow256(4) > 2 && Pow256(8) > 0;
    LoadStored(map[], 8, 8, 0);
    LoadStored(m1, 0, 4, kind);
    LoadApart(m1, 0, 4, kind, 8, 8);
    LoadApart(m2, 100, 1, 7, 8, 8);
    LoadApart(m2, 100, 1, 7, 0, 4);
  }

  lemma ShortRequest(kind: nat)
    requires kind < 2
    ensures Kind(ShortMemory(kind), SHORT_CHAIN) == kind && Sector(ShortMemory(kind), SHORT_CHAIN) == 0
    ensures Bytes(ShortMemory(kind), 100, 1) == [7] && Gather(ShortMemory(kind), SHORT_CHAIN, 1, 2) == [7]
  {
    hide Load, StoreBytes, Bytes;
    ShortHeader(kind);
    StoredBytes(Store(Store(map[], 8, 8, 0), 0, 4, kind), 100, Digits(7, 1));
  }

  /** As an OUT it reports an error, and the byte is on the disk. */
  lemma ShortOut()
    ensures
      var r := Request(ShortMemory(VIRTIO_BLK_T_OUT), Some([]), SHORT_CHAIN);
      !r.ok && r.disk == Some([7])
  {
    hide Load, StoreBytes, Bytes, Gather, Total;
    ShortChain();
    ShortRequest(1);
    ErrorWritesExactly(ShortMemory(1), Some([]), SHORT_CHAIN);
    assert Offset(0) == 0 && Zeros(1)[1..] == [];
    assert [] + Zeros(1) == Zeros(1) && Zeros(1)[..0] + [7] + Zeros(1)[1..] == [7];
  }

  /** As an IN it reports an error, and the byte the device may only read holds the image's byte. */
  lemma ShortIn()
    ensures
      var r := Request(ShortMemory(VIRTIO_BLK_T_IN), Some([5]), SHORT_CHAIN);
      !r.ok && Bytes(r.mem, 100, 1) == [5]
  {
    hide Load, StoreBytes, Bytes, Gather, Total;
    ShortChain();
    ShortRequest(0);
    BufferAfter(ShortMemory(0), Some([5]), SHORT_CHAIN, 1);
    ReadOnlyFilled(ShortMemory(0), Some([5]), SHORT_CHAIN);
    assert Fills(ShortMemory(0), Some([5]), SHORT_CHAIN, 1);
  }
}
