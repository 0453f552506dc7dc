/** internal/store/store.go offsetAddr: addresses inside an IPv4 prefix. */
module AddressPool {
  import opened Basics

  /** 2 to the n. */
  function Pow2(n: nat): (r: nat)
    ensures r > 0
  {
    if n == 0 then 1 else 2 * Pow2(n - 1)
  }

  datatype Prefix = Prefix(addr: IPv4, bits: nat)

  function Size(p: Prefix): (n: nat)
    requires p.bits <= 32
    ensures n > 0
  {
    Pow2(32 - p.bits)
  }

  /** A prefix whose host bits are zero. */
  ghost predicate Masked(p: Prefix) {
    p.bits <= 32 && p.addr % Size(p) == 0
  }

  /** The address agrees with the prefix on its first bits. */
  ghost predicate InPrefix(p: Prefix, a: IPv4)
    requires p.bits <= 32
  {
    a / Size(p) == p.addr / Size(p)
  }

  function ToU16(hi: Byte, lo: Byte): (v: int)
    ensures 0 <= v < 0x1_0000
  {
    var h: int, l: int := hi, lo;
    h * 0x100 + l
  }

  /** Big-endian decoding of four bytes. */
  function ToU32(b: seq<Byte>): IPv4
    requires |b| == 4
  {
    ToU16(b[0], b[1]) * 0x1_0000 + ToU16(b[2], b[3])
  }

  function FromU32(v: IPv4): (b: seq<Byte>)
    ensures |b| == 4 && ToU32(b) == v
    ensures v as int == b[0] as int * 0x100_0000 + b[1] as int * 0x1_0000 + b[2] as int * 0x100 + b[3] as int
  {
    var hi, lo := v / 0x1_0000, v % 0x1_0000;
    assert v == hi * 0x1_0000 + lo;
    [hi / 0x100, hi % 0x100, lo / 0x100, lo % 0x100]
  }

  method PutUint32(a: array<Byte>, v: IPv4)
    requires a.Length == 4
    modifies a
    ensures a[..] == FromU32(v)
  {
    var hi, lo := v / 0x1_0000, v % 0x1_0000;
    a[0], a[1], a[2], a[3] := hi / 0x100, hi % 0x100, lo / 0x100, lo % 0x100;
  }

  /** The 32-bit sum is written out with its wrap-around; the guard is what
      keeps it from ever happening on a masked prefix. */
  method OffsetAddr(p: Prefix, off: int) returns (r: Option<IPv4>)
    requires p.bits <= 32
    ensures r == Offset(p, off)
  {
    if off <= 0 || off >= Pow2(32 - p.bits) {
      return None;
    }
    var a := new Byte[4];
    var bytes := FromU32(p.addr);
    forall i | 0 <= i < 4 {
      a[i] := bytes[i];
    }
    assert a[..] == bytes;
    var v := (ToU32(a[..]) + off % 0x1_0000_0000) % 0x1_0000_0000;
    PutUint32(a, v);
    return Some(ToU32(a[..]));
  }

  function Offset(p: Prefix, off: int): Option<IPv4>
    requires p.bits <= 32
  {
    if off <= 0 || off >= Size(p) then None
    else Some((p.addr + off % 0x1_0000_0000) % 0x1_0000_0000)
  }

  lemma {:induction false} Pow2Adds(m: nat, n: nat)
    ensures Pow2(m + n) == Pow2(m) * Pow2(n)
    decreases m
  {
    if m > 0 {
      Pow2Adds(m - 1, n);
      assert Pow2(m + n) == 2 * Pow2(m + n - 1);
      assert 2 * (Pow2(m - 1) * Pow2(n)) == (2 * Pow2(m - 1)) * Pow2(n);
    }
  }

  lemma Pow2Of32()
    ensures Pow2(32) == 0x1_0000_0000
  {
    assert Pow2(4) == 16;
    Pow2Adds(4, 4);
    assert Pow2(8) == 256;
    Pow2Adds(8, 8);
    assert Pow2(16) == 0x1_0000;
    Pow2Adds(16, 16);
  }

  lemma Multiples(size: int, k: int)
    requires size > 0
    ensures k >= 1 ==> size * k >= size
    ensures k <= 0 ==> size * k <= 0
    ensures k <= -1 ==> size * k <= -size
  {
  }

  lemma RoomAboveMultiple(a: nat, size: nat, count: nat)
    requires size > 0 && a % size == 0 && a < size * count
    ensures a + size <= size * count
  {
    var q: int := a / size;
    assert size * count - a == size * (count - q);
    Multiples(size, count - q);
  }

  lemma SameBlock(a: nat, size: nat, off: nat)
    requires size > 0 && a % size == 0 && off < size
    ensures (a + off) / size == a / size
  {
    var q: int, r: int := a / size, (a + off) / size;
    assert a + off == size * r + (a + off) % size;
    assert size * (r - q) == off - (a + off) % size;
    Multiples(size, r - q);
  }

  lemma SumStaysInside(p: Prefix, off: int)
    requires Masked(p) && 0 < off < Size(p)
    ensures p.addr + off < 0x1_0000_0000
    ensures (p.addr + off) / Size(p) == p.addr / Size(p)
  {
    Pow2Of32();
    Pow2Adds(32 - p.bits, p.bits);
    RoomAboveMultiple(p.addr, Size(p), Pow2(p.bits));
    SameBlock(p.addr, Size(p), off);
  }

  lemma OffsetIsSum(p: Prefix, off: int)
    requires p.bits <= 32 && 0 < off < Size(p) && p.addr + off < 0x1_0000_0000
    ensures Offset(p, off).Some? && Offset(p, off).value == p.addr + off
  {
    var sum: int := p.addr + off;
    assert off % 0x1_0000_0000 == off && sum % 0x1_0000_0000 == sum;
  }

  /** On a masked prefix the sum never wraps, the result stays inside and is
      never the network address itself, and the pool is exhausted exactly from
      its size on. */
  lemma OffsetStaysInside(p: Prefix, off: int)
    requires Masked(p)
    ensures Offset(p, off).Some? <==> 0 < off < Size(p)
    ensures Offset(p, off).Some? ==>
              Offset(p, off).value == p.addr + off && InPrefix(p, Offset(p, off).value)
  {
    if 0 < off < Size(p) {
      SumStaysInside(p, off);
      OffsetIsSum(p, off);
    }
  }

  /** Different offsets give different addresses. */
  lemma OffsetIsInjective(p: Prefix, m: int, n: int)
    requires Masked(p) && Offset(p, m).Some? && Offset(p, n).Some?
    requires Offset(p, m) == Offset(p, n)
    ensures m == n
  {
    OffsetStaysInside(p, m);
    OffsetStaysInside(p, n);
  }

  /** 10.64.0.0/10, and the nodes' 10.10.0.0/16. */
  const CLIENT_POOL := Prefix(0x0A40_0000, 10)
  const GATEWAYS := Prefix(0x0A0A_0000, 16)

  lemma PoolSizes()
    ensures Size(CLIENT_POOL) == 0x40_0000 && Size(GATEWAYS) == 0x1_0000
    ensures Masked(CLIENT_POOL) && Masked(GATEWAYS)
  {
    Pow2Adds(8, 8);
    Pow2Adds(4, 4);
    assert Pow2(4) == 16;
    Pow2Adds(6, 16);
    assert Pow2(6) == 64;
  }

  /** Clients are in 10.64.0.0 to 10.127.255.255, the offset being what is added
      to the first, and gateways in 10.10.0.0 to 10.10.255.255. */
  lemma PoolsAreThese(off: int, a: IPv4)
    ensures Offset(CLIENT_POOL, off).Some? <==> 0 < off < 0x40_0000
    ensures Offset(CLIENT_POOL, off).Some? ==>
              Offset(CLIENT_POOL, off).value == 10 * 0x100_0000 + 64 * 0x1_0000 + off
    ensures InPrefix(GATEWAYS, a) <==> 10 * 0x100_0000 + 10 * 0x1_0000 <= a < 10 * 0x100_0000 + 11 * 0x1_0000
  {
    PoolSizes();
    OffsetStaysInside(CLIENT_POOL, off);
  }

  /** No client address is ever a node gateway. */
  lemma ClientsAreNotGateways(off: int)
    requires Offset(CLIENT_POOL, off).Some?
    ensures !InPrefix(GATEWAYS, Offset(CLIENT_POOL, off).value)
  {
    PoolSizes();
    OffsetStaysInside(CLIENT_POOL, off);
  }
}
