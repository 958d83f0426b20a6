/** Guest physical memory: one byte at each 64-bit address, addresses wrapping. */
module GuestMemory {
  type byte = x: int | 0 <= x < 256
  type Memory = map<int, byte>

  const TWO64 := 0x1_0000_0000_0000_0000

  function Wrap(a: int): (r: int)
    ensures 0 <= r < TWO64
  {
    a % TWO64
  }

  function Byte(m: Memory, a: int): byte { if Wrap(a) in m then m[Wrap(a)] else 0 }

  function Put(m: Memory, a: int, v: byte): Memory { m[Wrap(a) := v] }

  /** How far `x` lies after `a`, going round. */
  function Past(a: int, x: int): (r: int)
    ensures 0 <= r < TWO64
  {
    (x - a) % TWO64
  }

  predicate InSpan(a: int, n: nat, x: int) { Past(a, x) < n }

  ghost predicate Disjoint(a: int, m: nat, b: int, n: nat) { forall x :: InSpan(a, m, x) ==> !InSpan(b, n, x) }

  lemma PutGet(m: Memory, a: int, v: byte, x: int)
    ensures Byte(Put(m, a, v), x) == if Wrap(a) == Wrap(x) then v else Byte(m, x)
  {
  }

  lemma Same(a: int, i: nat, x: int)
    requires i < TWO64
    ensures Wrap(a + i) == Wrap(x) <==> Past(a, x) == i
  {
    var k := (x - a) / TWO64;
    assert x == a + Past(a, x) + TWO64 * k;
    WrapShift(a + Past(a, x), k);
    Near(a + i, a + Past(a, x));
  }

  lemma WrapShift(y: int, k: int)
    ensures Wrap(y + TWO64 * k) == Wrap(y)
  {
  }

  lemma Near(y: int, z: int)
    requires -TWO64 < y - z < TWO64
    ensures Wrap(y) == Wrap(z) <==> y == z
  {
  }

  function Bytes(m: Memory, a: int, n: nat): (s: seq<byte>)
    ensures |s| == n
  {
    seq<byte>(n, i requires 0 <= i < n => Byte(m, a + i))
  }

  /** The bytes stored one after the other, lowest address first. */
  function StoreBytes(m: Memory, a: int, s: seq<byte>): Memory {
    if s == [] then m else Put(StoreBytes(m, a, s[..|s| - 1]), a + |s| - 1, s[|s| - 1])
  }

  lemma {:induction false} StoredByte(m: Memory, a: int, s: seq<byte>, x: int)
    requires |s| < TWO64
    ensures Byte(StoreBytes(m, a, s), x) == if InSpan(a, |s|, x) then s[Past(a, x)] else Byte(m, x)
    decreases |s|
  {
    hide Byte, Put, Wrap, Past;
    if s != [] {
      var n := |s| - 1;
      StoredByte(m, a, s[..n], x);
      PutGet(StoreBytes(m, a, s[..n]), a + n, s[n], x);
      Same(a, n, x);
    }
  }

  lemma PastOwn(a: int, i: nat)
    requires i < TWO64
    ensures Past(a, a + i) == i
  {
  }

  /** A span reads back what was stored over it, and any span apart from it is as before. */
  lemma StoredBytes(m: Memory, a: int, s: seq<byte>)
    requires |s| < TWO64
    ensures Bytes(StoreBytes(m, a, s), a, |s|) == s
  {
    hide Byte, Put, Past, StoreBytes;
    forall i | 0 <= i < |s| ensures Bytes(StoreBytes(m, a, s), a, |s|)[i] == s[i] {
      StoredByte(m, a, s, a + i);
      PastOwn(a, i);
    }
  }

  lemma ApartBytes(m: Memory, a: int, s: seq<byte>, b: int, n: nat)
    requires |s| < TWO64 && n < TWO64 && Disjoint(a, |s|, b, n)
    ensures Bytes(StoreBytes(m, a, s), b, n) == Bytes(m, b, n)
  {
    hide Byte, Put, Past, StoreBytes;
    forall i | 0 <= i < n ensures Bytes(StoreBytes(m, a, s), b, n)[i] == Bytes(m, b, n)[i] {
      StoredByte(m, a, s, b + i);
      PastOwn(b, i);
      assert InSpan(b, n, b + i);
    }
  }

  // ---- numbers, least significant byte first ----

  function Pow256(n: nat): (r: nat)
    ensures r >= 1
  {
    if n == 0 then 1 else 256 * Pow256(n - 1)
  }

  function Number(s: seq<byte>): (r: nat)
    ensures r < Pow256(|s|)
  {
    if s == [] then 0 else (var first: int := s[0]; first + 256 * Number(s[1..]))
  }

  function Digits(v: nat, n: nat): (s: seq<byte>)
    ensures |s| == n
  {
    if n == 0 then [] else (var d: int := v % 256; [d] + Digits(v / 256, n - 1))
  }

  lemma {:induction false} DigitsNumber(v: nat, n: nat)
    requires v < Pow256(n)
    ensures Number(Digits(v, n)) == v
  {
    if n > 0 {
      DigitsNumber(v / 256, n - 1);
      assert Digits(v, n)[1..] == Digits(v / 256, n - 1);
    }
  }

  function Load(m: Memory, a: int, n: nat): (r: nat)
    ensures r < Pow256(n)
  {
    Number(Bytes(m, a, n))
  }

  function Store(m: Memory, a: int, n: nat, v: nat): Memory { StoreBytes(m, a, Digits(v, n)) }

  lemma LoadStored(m: Memory, a: int, n: nat, v: nat)
    requires v < Pow256(n) && n < TWO64
    ensures Load(Store(m, a, n, v), a, n) == v
  {
    StoredBytes(m, a, Digits(v, n));
    DigitsNumber(v, n);
  }

  lemma LoadApart(m: Memory, a: int, n: nat, v: nat, b: int, k: nat)
    requires n < TWO64 && k < TWO64 && Disjoint(a, n, b, k)
    ensures Load(Store(m, a, n, v), b, k) == Load(m, b, k)
  {
    ApartBytes(m, a, Digits(v, n), b, k);
  }
}
