/** The device object: loops over descriptors and buffers that write guest memory and the
    image as they go. */
module VirtioBlkDevice {
  import opened Wrappers
  import opened GuestMemory
  import opened Virtio
  import opened VirtioQueue

  lemma BytesGrow(m: Memory, a: int, n: nat)
    ensures Bytes(m, a, n + 1) == Bytes(m, a, n) + [Byte(m, a + n)]
  {
    hide Byte;
  }

  lemma {:induction false} GatherGrows(m: Memory, chain: seq<Desc>, lo: nat, hi: nat)
    requires lo <= hi < |chain|
    ensures Gather(m, chain, lo, hi + 1) == Gather(m, chain, lo, hi) + Bytes(m, chain[hi].addr, chain[hi].len)
    decreases hi - lo
  {
    hide Bytes;
    if lo < hi { GatherGrows(m, chain, lo + 1, hi); }
  }

  lemma {:induction false} TotalGrows(chain: seq<Desc>, lo: nat, hi: nat)
    requires lo <= hi < |chain|
    ensures Total(chain, lo, hi + 1) == Total(chain, lo, hi) + chain[hi].len
    decreases hi - lo
  {
    if lo < hi { TotalGrows(chain, lo + 1, hi); }
  }

  lemma {:induction false} TotalSplits(chain: seq<Desc>, lo: nat, mid: nat, hi: nat)
    requires lo <= mid <= hi <= |chain|
    ensures Total(chain, lo, hi) == Total(chain, lo, mid) + Total(chain, mid, hi)
    decreases mid - lo
  {
    if lo < mid { TotalSplits(chain, lo + 1, mid, hi); }
  }

  class VirtioBlk {
    var mem: Memory        // the guest memory the device shares
    var disk: Disk
    var queue0: Queue
    var interruptStatus: bv32
    var irqs: nat          // times the interrupt line was raised

    predicate Notified()
      reads this`interruptStatus
    {
      interruptStatus & 1 == 1
    }

    function Now(): State
      reads this
    {
      State(mem, disk, queue0, Notified(), irqs)
    }

    method CopyFromDram(gpa: int, len: nat) returns (out: seq<byte>)
      ensures out == Bytes(mem, gpa, len)
    {
      hide Bytes, Byte;
      out := [];
      NoBytes(mem, gpa);
      for i := 0 to len
        invariant out == Bytes(mem, gpa, i)
      {
        BytesGrow(mem, gpa, i);
        out := out + [Byte(mem, gpa + i)];
      }
    }

    method CopyToDram(gpa: int, src: seq<byte>)
      modifies this`mem
      ensures mem == StoreBytes(old(mem), gpa, src)
    {
      hide Put;
      for i := 0 to |src|
        invariant mem == StoreBytes(old(mem), gpa, src[..i])
      {
        assert src[..i + 1][..i] == src[..i];
        mem := Put(mem, gpa + i, src[i]);
      }
      assert src[..|src|] == src;
    }

    method DiskRead(sector: nat, n: nat) returns (ok: bool, buf: seq<byte>)
      ensures ok == (disk.Some? && Seekable(sector)) && |buf| == n
      ensures ok ==> buf == DiskBytes(disk.value, Offset(sector), n)
    {
      buf := Zeros(n);
      if disk.None? || Offset(sector) >= TWO64 / 2 {
        return false, buf;
      }
      var image, off := disk.value, Offset(sector);
      if off < |image| {
        var got := if off + n <= |image| then n else |image| - off;
        buf := image[off..off + got] + Zeros(n - got);
      }
      ok := true;
    }

    method DiskWrite(sector: nat, data: seq<byte>) returns (ok: bool)
      modifies this`disk
      ensures ok == (old(disk).Some? && Seekable(sector))
      ensures disk == if ok then Some(DiskWritten(old(disk).value, Offset(sector), data)) else old(disk)
    {
      if disk.None? || Offset(sector) >= TWO64 / 2 {
        return false;
      }
      disk := Some(DiskWritten(disk.value, Offset(sector), data));
      ok := true;
    }

    method FetchDescriptorChain(head: nat, q: Queue) returns (ok: bool, chain: seq<Desc>)
      ensures (if ok then Some(chain) else None) == FetchChain(mem, q, head)
    {
      hide ReadDesc;
      chain := [];
      if q.desc == 0 {
        return false, chain;
      }
      var idx := head;
      assert forall rest: seq<Desc> {:trigger Some(rest)} :: chain + rest == rest;
      for iter := 0 to q.size
        invariant FetchChain(mem, q, head) ==
          match Fetch(mem, q.desc, idx, q.size - iter)
          case None => None
          case Some(rest) => Some(chain + rest)
      {
        var d := ReadDesc(mem, q.desc, idx);
        ghost var before := chain;
        chain := chain + [d];
        if d.HasNext() {
          idx := d.next;
          assert forall rest :: before + ([d] + rest) == chain + rest;
        } else {
          return true, chain;
        }
      }
      ok := false;
    }

    /** The last writable descriptor after the header, searched from the end. */
    static method FindStatus(chain: seq<Desc>) returns (s: int)
      ensures s == StatusIndex(chain)
    {
      s := -1;
      var i := |chain| - 1;
      while i >= 1
        invariant -1 <= i < |chain|
        invariant StatusIndex(chain) == StatusAmong(chain, i + 1)
      {
        if chain[i].Writable() {
          s := i;
          break;
        }
        i := i - 1;
      }
    }

    static method DataTotal(chain: seq<Desc>, hi: nat) returns (n: nat)
      requires 1 <= hi <= |chain|
      ensures n == Total(chain, 1, hi)
    {
      n := 0;
      for i := 1 to hi
        invariant n == Total(chain, 1, i)
      {
        TotalGrows(chain, 1, i);
        n := n + chain[i].len;
      }
    }

    /** A read request: the image into the buffers. */
    method ServeIn(chain: seq<Desc>, hi: nat, sector: nat, total: nat) returns (ok: bool)
      requires 1 <= hi < |chain| && total == Total(chain, 1, hi)
      modifies this`mem
      ensures Outcome(mem, disk, ok) == Transfer(old(mem), disk, chain, hi, VIRTIO_BLK_T_IN, sector)
    {
      hide StoreBytes, Seekable, DiskBytes, Offset;
      var tmp;
      ok, tmp := DiskRead(sector, total);
      ghost var done := if ok then Scatter(mem, chain, 1, hi, tmp) else Scattered(mem, false);
      var pos := 0;
      var i := 1;
      while i < hi && ok
        invariant 1 <= i <= hi && pos <= total
        invariant ok ==> total - pos == Total(chain, i, hi) && Scatter(mem, chain, i, hi, tmp[pos..]) == done
        invariant !ok ==> Scattered(mem, false) == done
      {
        if !chain[i].Writable() {
          ok := false;
        }
        var toCopy := if chain[i].len <= total - pos then chain[i].len else total - pos;
        assert tmp[pos..][..toCopy] == tmp[pos..pos + toCopy];
        assert tmp[pos..][toCopy..] == tmp[pos + toCopy..];
        CopyToDram(chain[i].addr, tmp[pos..pos + toCopy]);
        pos := pos + toCopy;
        i := i + 1;
      }
    }

    /** A write request: the buffers into the image; the image is written even when the size is
        not a whole number of sectors. */
    method ServeOut(chain: seq<Desc>, hi: nat, sector: nat, total: nat) returns (ok: bool)
      requires 1 <= hi < |chain| && total == Total(chain, 1, hi)
      modifies this`disk
      ensures Outcome(mem, disk, ok) == Transfer(mem, old(disk), chain, hi, VIRTIO_BLK_T_OUT, sector)
    {
      hide Bytes, Seekable, DiskWritten, Offset;
      ok := true;
      var tmp := [];
      for i := 1 to hi
        invariant tmp == Gather(mem, chain, 1, i) && ok && disk == old(disk)
      {
        TotalSplits(chain, 1, i, hi);
        if |tmp| + chain[i].len > total {
          ok := false;
        }
        GatherGrows(mem, chain, 1, i);
        var part := CopyFromDram(chain[i].addr, chain[i].len);
        tmp := tmp + part;
      }
      if total % SECTOR_SIZE != 0 {
        ok := false;
      }
      assert tmp == Gather(mem, chain, 1, hi);
      hide Gather, Total;
      var written := DiskWrite(sector, tmp);
      if !written {
        ok := false;
      }
    }

    /** An accepted request, from its header to its status byte. */
    method Serve(chain: seq<Desc>)
      requires Accepted(chain)
      modifies this`mem, this`disk
      ensures mem == Request(old(mem), old(disk), chain).mem && disk == Request(old(mem), old(disk), chain).disk
    {
      hide Load, StoreBytes, Transfer, Digits;
      var kind, sector := Kind(mem, chain), Sector(mem, chain);
      var s := FindStatus(chain);
      if s >= 1 {
        var total := DataTotal(chain, s);
        var ok := false;
        if kind == VIRTIO_BLK_T_IN {
          ok := ServeIn(chain, s, sector, total);
        } else if kind == VIRTIO_BLK_T_OUT {
          ok := ServeOut(chain, s, sector, total);
        } else {
          OtherKind(mem, disk, chain, s, kind, sector);
        }
        mem := Store(mem, chain[s].addr, 1, if ok then VIRTIO_BLK_S_OK else VIRTIO_BLK_S_IOERR);
      }
    }

    /** The completion: used element, used.idx, interrupt. */
    method Report(head: nat)
      requires Sane(queue0)
      modifies this`mem, this`queue0, this`interruptStatus, this`irqs
      ensures mem == Reported(old(mem), old(queue0), head)
      ensures queue0 == Consumed(old(queue0)).(lastUsed := (old(queue0).lastUsed + 1) % U16)
      ensures Notified() && irqs == old(irqs) + 1
    {
      hide StoreBytes, Digits;
      var elem := UsedElem(queue0, queue0.lastUsed);
      mem := Store(mem, elem, 4, head);
      mem := Store(mem, elem + 4, 4, 0);
      queue0 := queue0.(lastUsed := (queue0.lastUsed + 1) % U16);
      mem := Store(mem, queue0.used + 2, 2, queue0.lastUsed);
      queue0 := Consumed(queue0);
      interruptStatus := interruptStatus | 1;
      irqs := irqs + 1;
    }

    /** `process_queue`: always ends, in the state the drain function gives. */
    method ProcessQueue(qsel: nat)
      requires queue0.ready && queue0.size > 0 ==> Sane(queue0)
      modifies this
      ensures Now() ==
        if qsel != 0 || !old(queue0.ready) || old(queue0.size) == 0 then old(Now())
        else Drain(old(Now()), AvailIdx(old(Now())))
    {
      hide NextChain, Request, Reported, Notified, Load, Fetch, Head;
      if qsel != 0 || !queue0.ready || queue0.size == 0 {
        return;
      }
      var availIdx := AvailIdx(Now());
      while queue0.lastAvail != availIdx
        invariant Sane(queue0)
        invariant Drain(Now(), availIdx) == Drain(old(Now()), availIdx)
        decreases Left(queue0.lastAvail, availIdx)
      {
        LeftStep(queue0.lastAvail, availIdx);
        ghost var here := Now();
        ServeNext();
        assert Now() == Step(here);
      }
    }

    /** One pass of the loop. */
    method ServeNext()
      requires Sane(queue0)
      modifies this
      ensures Now() == Step(old(Now()))
    {
      hide Request, Reported, Notified, Load, Fetch, Head, Accepted;
      ghost var here := Now();
      var head := Head(Now());
      var ok, chain := FetchDescriptorChain(head, queue0);
      if !ok || |chain| < 2 || chain[0].len < 16 {
        NotAccepted(here, ok, chain);
        queue0 := Consumed(queue0);
        return;
      }
      IsAccepted(here, chain);
      Serve(chain);
      Report(head);
    }
  }

  lemma NotAccepted(st: State, ok: bool, chain: seq<Desc>)
    requires st.q.size > 0
    requires (if ok then Some(chain) else None) == FetchChain(st.mem, st.q, Head(st))
    requires !ok || |chain| < 2 || chain[0].len < 16
    ensures NextChain(st) == None
  {
  }

  lemma IsAccepted(st: State, chain: seq<Desc>)
    requires st.q.size > 0 && FetchChain(st.mem, st.q, Head(st)) == Some(chain)
    requires !(|chain| < 2 || chain[0].len < 16)
    ensures NextChain(st) == Some(chain) && Accepted(chain)
  {
  }

  lemma OtherKind(m: Memory, disk: Disk, chain: seq<Desc>, hi: nat, kind: nat, sector: nat)
    requires 1 <= hi < |chain| && kind != VIRTIO_BLK_T_IN && kind != VIRTIO_BLK_T_OUT
    ensures Transfer(m, disk, chain, hi, kind, sector) == Outcome(m, disk, false)
  {
  }

  lemma NoBytes(m: Memory, a: int)
    ensures Bytes(m, a, 0) == []
  {
  }
}
