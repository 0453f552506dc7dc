/** internal/proxyproto/proxyproto.go: the binary header of PROXY protocol v2
    (section 2.2 of the HAProxy PROXY protocol specification). */
module ProxyProto {
  import opened Basics
  import opened Stream

  datatype AnyAddr = Invalid | V4(b: seq<Byte>) | V6(b: seq<Byte>, zone: string)

  predicate WellSized(a: AnyAddr) {
    match a
    case Invalid => true
    case V4(b) => |b| == 4
    case V6(b, _) => |b| == 16
  }

  type Addr = a: AnyAddr | WellSized(a) witness Invalid

  type Port = n: int | 0 <= n < 0x1_0000

  datatype AddrPort = AddrPort(addr: Addr, port: Port)

  const SIGNATURE: seq<Byte> := [0x0D, 0x0A, 0x0D, 0x0A, 0x00, 0x0D, 0x0A, 0x51, 0x55, 0x49, 0x54, 0x0A]
  const CMD_LOCAL: Byte := 0x20
  const CMD_PROXY: Byte := 0x21
  const FAM_TCP4: Byte := 0x11
  const FAM_TCP6: Byte := 0x21

  const MAPPED: seq<Byte> := [0, 0, 0, 0, 0, 0, 0, 0, 0, 0, 0xFF, 0xFF]
  const ZERO16: seq<Byte> := [0, 0, 0, 0, 0, 0, 0, 0, 0, 0, 0, 0, 0, 0, 0, 0]

  /** An IPv4-mapped IPv6 address becomes the IPv4 one; its zone is dropped. */
  function Unmap(a: Addr): Addr {
    if a.V6? && a.b[..12] == MAPPED then V4(a.b[12..]) else a
  }

  function As16(a: Addr): (r: seq<Byte>)
    ensures |r| == 16
  {
    match a
    case Invalid => ZERO16
    case V4(b) => MAPPED + b
    case V6(b, _) => b
  }

  function PutU16(n: Port): seq<Byte> {
    [n / 256, n % 256]
  }

  function U16(b: seq<Byte>): Port
    requires |b| == 2
  {
    var hi: int, lo: int := b[0], b[1];
    hi * 256 + lo
  }

  // ----------------------------------------------------------------- writing

  function AddressBlock(src: AddrPort, dst: AddrPort): seq<Byte> {
    var s, d := Unmap(src.addr), Unmap(dst.addr);
    (if s.V4? && d.V4? then s.b + d.b else As16(s) + As16(d)) + (PutU16(src.port) + PutU16(dst.port))
  }

  function HeaderBytes(src: AddrPort, dst: AddrPort): seq<Byte> {
    var s, d := Unmap(src.addr), Unmap(dst.addr);
    SIGNATURE
    + (if s.V4? && d.V4? then [CMD_PROXY, FAM_TCP4, 0, 12] else [CMD_PROXY, FAM_TCP6, 0, 36])
    + AddressBlock(src, dst)
  }

  method Header(src: AddrPort, dst: AddrPort) returns (b: seq<Byte>)
    ensures b == HeaderBytes(src, dst)
  {
    var s, d := Unmap(src.addr), Unmap(dst.addr);
    b := SIGNATURE;
    b := b + [CMD_PROXY];
    if s.V4? && d.V4? {
      b := b + [FAM_TCP4];
      b := b + PutU16(12);
      b := b + s.b;
      b := b + d.b;
    } else {
      b := b + [FAM_TCP6];
      b := b + PutU16(36);
      b := b + As16(s);
      b := b + As16(d);
    }
    b := b + PutU16(src.port);
    b := b + PutU16(dst.port);
  }

  // ----------------------------------------------------------------- reading

  datatype Error = ShortHeader | NoHeader | ShortBody | BadCommand | BadFamily

  datatype ReadResult = Accepted(src: AddrPort, dst: AddrPort, raw: seq<Byte>) | Rejected(error: Error)

  const EMPTY := AddrPort(Invalid, 0)

  /** What Read makes of the 16 fixed bytes and of the body they announce. */
  function Interpret(hdr: seq<Byte>, body: seq<Byte>): ReadResult
    requires |hdr| == 16
  {
    var raw := hdr + body;
    if hdr[12] == CMD_LOCAL then Accepted(EMPTY, EMPTY, raw)
    else if hdr[12] != CMD_PROXY then Rejected(BadCommand)
    else if hdr[13] == FAM_TCP4 && |body| >= 12 then
      Accepted(AddrPort(V4(body[0..4]), U16(body[8..10])), AddrPort(V4(body[4..8]), U16(body[10..12])), raw)
    else if hdr[13] == FAM_TCP6 && |body| >= 36 then
      Accepted(AddrPort(V6(body[0..16], ""), U16(body[32..34])), AddrPort(V6(body[16..32], ""), U16(body[34..36])), raw)
    else Rejected(BadFamily)
  }

  function Parse(stream: seq<Byte>): ReadResult {
    if |stream| < 16 then Rejected(ShortHeader)
    else if stream[..12] != SIGNATURE then Rejected(NoHeader)
    else
      var n := U16(stream[14..16]);
      if |stream| < 16 + n then Rejected(ShortBody)
      else Interpret(stream[..16], stream[16..16 + n])
  }

  /** How many bytes Read takes from the stream, whatever its outcome. */
  function Consumed(stream: seq<Byte>): (n: nat)
    ensures n <= |stream|
  {
    if |stream| < 16 then |stream|
    else if stream[..12] != SIGNATURE then 16
    else
      var n := U16(stream[14..16]);
      if |stream| < 16 + n then |stream| else 16 + n
  }

  method Read(r: Conn) returns (res: ReadResult)
    modifies r`incoming
    ensures res == Parse(old(r.incoming))
    ensures r.incoming == old(r.incoming)[Consumed(old(r.incoming))..]
  {
    ghost var stream := r.incoming;
    var hdr, err := r.ReadFull(16);
    if err {
      return Rejected(ShortHeader);
    }
    assert hdr == stream[..16];
    if hdr[..12] != SIGNATURE {
      return Rejected(NoHeader);
    }
    var n := U16(hdr[14..16]);
    assert hdr[14..16] == stream[14..16] && hdr[..12] == stream[..12];
    var body;
    body, err := r.ReadFull(n);
    if err {
      return Rejected(ShortBody);
    }
    assert body == stream[16..][..n] == stream[16..16 + n];
    if hdr[12] == CMD_LOCAL {
      return Accepted(EMPTY, EMPTY, hdr + body);
    }
    if hdr[12] != CMD_PROXY {
      return Rejected(BadCommand);
    }
    if hdr[13] == FAM_TCP4 && n >= 12 {
      var src := AddrPort(V4(body[0..4]), U16(body[8..10]));
      var dst := AddrPort(V4(body[4..8]), U16(body[10..12]));
      return Accepted(src, dst, hdr + body);
    }
    if hdr[13] == FAM_TCP6 && n >= 36 {
      var src := AddrPort(V6(body[0..16], ""), U16(body[32..34]));
      var dst := AddrPort(V6(body[16..32], ""), U16(body[34..36]));
      return Accepted(src, dst, hdr + body);
    }
    return Rejected(BadFamily);
  }

  // -------------------------------------------------------------- round trip

  lemma PortRoundTrip(n: Port)
    ensures U16(PutU16(n)) == n
  {
  }

  /** The address that arrives: IPv4 stays IPv4 only if both ends are. */
  function Arrives(a: Addr, other: Addr): Addr {
    if Unmap(a).V4? && Unmap(other).V4? then Unmap(a) else V6(As16(Unmap(a)), "")
  }

  /** Reading what Header wrote, with anything behind it, yields the same ports
      and addresses, returns the header itself and consumes exactly it. */
  lemma RoundTrip(src: AddrPort, dst: AddrPort, rest: seq<Byte>)
    ensures var h := HeaderBytes(src, dst);
            && Parse(h + rest) == Accepted(AddrPort(Arrives(src.addr, dst.addr), src.port),
                                           AddrPort(Arrives(dst.addr, src.addr), dst.port), h)
            && Consumed(h + rest) == |h|
  {
    var h := HeaderBytes(src, dst);
    var hdr, body := h[..16], AddressBlock(src, dst);
    assert h == hdr + body && (h + rest)[..16] == hdr;
    assert (h + rest)[..12] == hdr[..12] == SIGNATURE && (h + rest)[14..16] == hdr[14..16];
    assert U16(hdr[14..16]) == |body|;
    assert (h + rest)[16..16 + |body|] == body;
    InterpretBlock(src, dst, hdr);
  }

  lemma InterpretBlock(src: AddrPort, dst: AddrPort, hdr: seq<Byte>)
    requires |hdr| == 16 && hdr[12] == CMD_PROXY
    requires hdr[13] == if Unmap(src.addr).V4? && Unmap(dst.addr).V4? then FAM_TCP4 else FAM_TCP6
    ensures Interpret(hdr, AddressBlock(src, dst)) ==
            Accepted(AddrPort(Arrives(src.addr, dst.addr), src.port),
                     AddrPort(Arrives(dst.addr, src.addr), dst.port), hdr + AddressBlock(src, dst))
  {
    var s, d := Unmap(src.addr), Unmap(dst.addr);
    var body := AddressBlock(src, dst);
    PortRoundTrip(src.port);
    PortRoundTrip(dst.port);
    if s.V4? && d.V4? {
      assert body[0..4] == s.b && body[4..8] == d.b;
      assert body[8..10] == PutU16(src.port) && body[10..12] == PutU16(dst.port);
    } else {
      assert body[0..16] == As16(s) && body[16..32] == As16(d);
      assert body[32..34] == PutU16(src.port) && body[34..36] == PutU16(dst.port);
    }
  }

  function StripZone(a: Addr): Addr {
    if a.V6? then V6(a.b, "") else a
  }

  /** The arriving address is the original one up to IPv4 mapping and zone; an
      address that was never valid arrives as the all-zero IPv6 address. */
  lemma ArrivesSameHost(a: Addr, other: Addr)
    ensures a != Invalid ==> Unmap(StripZone(Arrives(a, other))) == Unmap(StripZone(a))
    ensures a == Invalid ==> Arrives(a, other) == V6(ZERO16, "")
  {
  }

  /** Whatever is accepted, raw plus what is left is the stream: forwarding raw
      and then the rest loses nothing, extensions included. */
  lemma AcceptedRawIsConsumed(stream: seq<Byte>)
    requires Parse(stream).Accepted?
    ensures Parse(stream).raw == stream[..Consumed(stream)]
    ensures |Parse(stream).raw| == Consumed(stream) >= 16
  {
  }

  /** Nothing that does not start with the signature is ever accepted, and an
      accepted header decides alone: the bytes behind it do not matter. */
  lemma OnlyTheHeaderDecides(stream: seq<Byte>, rest: seq<Byte>)
    requires Parse(stream).Accepted?
    ensures SIGNATURE <= stream
    ensures Parse(stream[..Consumed(stream)] + rest) == Parse(stream)
    ensures Consumed(stream[..Consumed(stream)] + rest) == Consumed(stream)
  {
  }

  // ------------------------------------------------------------- the layout

  /** Two bytes of a stream as a big-endian number. */
  function NumberAt(s: seq<Byte>, i: nat): int
    requires i + 2 <= |s|
  {
    s[i] as int * 256 + s[i + 1] as int
  }

  const SIGNATURE_TEXT := "\r\n\r\n\0\r\nQUIT\n"

  /** The stream begins with the signature of version 2. */
  ghost predicate Signed(s: seq<Byte>) {
    |s| >= 12 && forall i :: 0 <= i < 12 ==> s[i] as int == SIGNATURE_TEXT[i] as int
  }

  lemma SignedExactly(s: seq<Byte>)
    ensures Signed(s) <==> SIGNATURE <= s
  {
    assert forall i :: 0 <= i < 12 ==> SIGNATURE[i] as int == SIGNATURE_TEXT[i] as int;
    if Signed(s) {
      assert forall i :: 0 <= i < 12 ==> s[i] == SIGNATURE[i];
    }
    if SIGNATURE <= s {
      assert forall i :: 0 <= i < 12 ==> s[i] == SIGNATURE[i];
    }
  }

  /** A v4-mapped address is written as the IPv4 one. */
  ghost predicate IsFour(a: Addr) {
    a.V4? || (a.V6? && a.b[..10] == [0, 0, 0, 0, 0, 0, 0, 0, 0, 0] && a.b[10] == 0xFF && a.b[11] == 0xFF)
  }

  ghost function FourBytes(a: Addr): seq<Byte>
    requires IsFour(a)
  {
    if a.V4? then a.b else a.b[12..]
  }

  lemma IsFourExactly(a: Addr)
    ensures IsFour(a) <==> Unmap(a).V4?
    ensures IsFour(a) ==> Unmap(a).b == FourBytes(a)
  {
    if a.V6? {
      assert a.b[..12] == a.b[..10] + [a.b[10], a.b[11]];
      assert MAPPED == MAPPED[..10] + [MAPPED[10], MAPPED[11]] && MAPPED[..10] == [0, 0, 0, 0, 0, 0, 0, 0, 0, 0];
    }
  }

  lemma HeaderFront(src: AddrPort, dst: AddrPort)
    ensures var h := HeaderBytes(src, dst);
            && |h| >= 16 && Signed(h) && h[12] == 0x21 && NumberAt(h, 14) == |h| - 16
            && h[13] == (if IsFour(src.addr) && IsFour(dst.addr) then 0x11 else 0x21)
            && h[16..] == AddressBlock(src, dst)
  {
    IsFourExactly(src.addr);
    IsFourExactly(dst.addr);
    var h := HeaderBytes(src, dst);
    assert h[..12] == SIGNATURE;
    SignedExactly(h);
  }

  /** The header as section 2.2 lays it out: signature, version 2 with command
      PROXY, address family and stream protocol, the length of what follows,
      then source and destination address and source and destination port, all
      big-endian. */
  lemma HeaderLayout(src: AddrPort, dst: AddrPort)
    ensures var h := HeaderBytes(src, dst);
            && Signed(h) && h[12] == 0x21 && NumberAt(h, 14) == |h| - 16
            && (IsFour(src.addr) && IsFour(dst.addr) ==>
                  && h[13] == 0x11 && |h| == 28
                  && h[16..20] == FourBytes(src.addr) && h[20..24] == FourBytes(dst.addr)
                  && NumberAt(h, 24) == src.port && NumberAt(h, 26) == dst.port)
            && (!(IsFour(src.addr) && IsFour(dst.addr)) ==>
                  && h[13] == 0x21 && |h| == 52
                  && h[16..32] == As16(Unmap(src.addr)) && h[32..48] == As16(Unmap(dst.addr))
                  && NumberAt(h, 48) == src.port && NumberAt(h, 50) == dst.port)
  {
    HeaderFront(src, dst);
    IsFourExactly(src.addr);
    IsFourExactly(dst.addr);
    var h, block := HeaderBytes(src, dst), AddressBlock(src, dst);
    assert forall i, j :: 0 <= i <= j <= |block| ==> h[16 + i..16 + j] == block[i..j];
    assert forall i :: 0 <= i < |block| ==> h[16 + i] == block[i];
    PortBytes(src.port);
    PortBytes(dst.port);
    if IsFour(src.addr) && IsFour(dst.addr) {
      assert h[16 + 0..16 + 4] == block[0..4] && h[16 + 4..16 + 8] == block[4..8];
    } else {
      assert h[16 + 0..16 + 16] == block[0..16] && h[16 + 16..16 + 32] == block[16..32];
    }
  }

  lemma PortBytes(n: Port)
    ensures |PutU16(n)| == 2 && PutU16(n)[0] as int * 256 + PutU16(n)[1] as int == n
  {
  }

  /** Addresses the 16-byte form stands for: an IPv4 one is mapped, and one that
      is not valid is all zeros. */
  lemma SixteenBytes(a: Addr)
    ensures a.V6? ==> As16(a) == a.b
    ensures a.V4? ==> As16(a)[..10] == [0, 0, 0, 0, 0, 0, 0, 0, 0, 0] && As16(a)[10] == As16(a)[11] == 0xFF
    ensures a.V4? ==> As16(a)[12..] == a.b
    ensures a == Invalid ==> forall i :: 0 <= i < 16 ==> As16(a)[i] == 0
  {
    if a.V4? {
      assert As16(a)[..10] == MAPPED[..10];
    }
  }

  /** What is accepted: a whole header of version 2, with the command LOCAL, or
      with PROXY and TCP over IPv4 or IPv6 and room for the addresses. */
  lemma AcceptsExactly(s: seq<Byte>)
    ensures Parse(s).Accepted? <==>
              && |s| >= 16 && Signed(s) && |s| >= 16 + NumberAt(s, 14)
              && (s[12] == 0x20
                  || (s[12] == 0x21 && s[13] == 0x11 && NumberAt(s, 14) >= 12)
                  || (s[12] == 0x21 && s[13] == 0x21 && NumberAt(s, 14) >= 36))
    ensures |s| >= 16 && Signed(s) && |s| >= 16 + NumberAt(s, 14) ==> Consumed(s) == 16 + NumberAt(s, 14)
  {
    SignedExactly(s);
    if |s| >= 16 {
      assert s[14..16] == [s[14], s[15]];
      assert SIGNATURE <= s <==> s[..12] == SIGNATURE;
      if s[..12] == SIGNATURE && |s| >= 16 + NumberAt(s, 14) {
        assert s[..16][12] == s[12] && s[..16][13] == s[13];
      }
    }
  }

  /** What an accepted header says: nothing for LOCAL, and otherwise the
      addresses and ports in their places. */
  lemma ReadsInPlace(s: seq<Byte>)
    requires Parse(s).Accepted?
    ensures |s| >= 16
    ensures s[12] == 0x20 ==> Parse(s).src == EMPTY && Parse(s).dst == EMPTY
    ensures s[12] != 0x20 && s[13] == 0x11 ==>
              && |s| >= 28
              && Parse(s).src == AddrPort(V4(s[16..20]), NumberAt(s, 24))
              && Parse(s).dst == AddrPort(V4(s[20..24]), NumberAt(s, 26))
    ensures s[12] != 0x20 && s[13] == 0x21 ==>
              && |s| >= 52
              && Parse(s).src == AddrPort(V6(s[16..32], ""), NumberAt(s, 48))
              && Parse(s).dst == AddrPort(V6(s[32..48], ""), NumberAt(s, 50))
  {
    AcceptsExactly(s);
    var n := U16(s[14..16]);
    var hdr, body := s[..16], s[16..16 + n];
    assert hdr[12] == s[12] && hdr[13] == s[13];
    if s[12] != 0x20 && s[13] == 0x11 {
      BodySlice(s, n, 0, 4);
      BodySlice(s, n, 4, 8);
      BodySlice(s, n, 8, 10);
      BodySlice(s, n, 10, 12);
    }
    if s[12] != 0x20 && s[13] == 0x21 {
      BodySlice(s, n, 0, 16);
      BodySlice(s, n, 16, 32);
      BodySlice(s, n, 32, 34);
      BodySlice(s, n, 34, 36);
    }
  }

  lemma BodySlice(s: seq<Byte>, n: nat, i: nat, j: nat)
    requires |s| >= 16 + n && i <= j <= n
    ensures s[16..16 + n][i..j] == s[16 + i..16 + j]
  {
    var a, b := s[16..16 + n][i..j], s[16 + i..16 + j];
    forall k | 0 <= k < j - i ensures a[k] == b[k] {
      assert a[k] == s[16..16 + n][i + k] == s[16 + i + k];
    }
  }
}
