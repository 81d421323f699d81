/** The PROXY protocol version 2 envelope of a relayed datagram (pkg/proxyproto/header.go:
    30-66, 72-141, 176-178; section 2.2 of the PROXY protocol specification). */
module ProxyHeader {
  import opened Bytes

  const SIGNATURE: seq<Byte> := [0x0D, 0x0A, 0x0D, 0x0A, 0x00, 0x0D, 0x0A, 0x51, 0x55, 0x49, 0x54, 0x0A]
  const V1_PREFIX: seq<Byte> := [0x50, 0x52, 0x4F, 0x58, 0x59, 0x20] // "PROXY "
  const MAPPED: seq<Byte> := [0, 0, 0, 0, 0, 0, 0, 0, 0, 0, 0xFF, 0xFF]

  /** A net.UDPAddr: 4 or 16 bytes of address, and a Go int. */
  datatype Endpoint = Endpoint(ip: seq<Byte>, port: int)

  datatype HeaderError = InvalidAddress | HeaderTooShort | InvalidHeader

  /** The source an envelope names, if any, and where the payload begins. */
  type Parsed = Result<(Option<Endpoint>, nat), HeaderError>

  function To4(ip: seq<Byte>): (r: Option<seq<Byte>>)
    ensures r.Some? ==> |r.value| == 4
  {
    if |ip| == 4 then Some(ip)
    else if |ip| == 16 && ip[..12] == MAPPED then Some(ip[12..])
    else None
  }

  function To16(ip: seq<Byte>): (r: Option<seq<Byte>>)
    ensures r.Some? ==> |r.value| == 16
  {
    if |ip| == 4 then Some(MAPPED + ip) else if |ip| == 16 then Some(ip) else None
  }

  predicate IsUnspecified(ip: seq<Byte>)
  {
    var wide := To16(ip);
    wide.Some? && (wide.value == MAPPED + [0, 0, 0, 0] || wide.value == seq(16, _ => 0))
  }

  predicate ValidAddress(a: Endpoint)
  {
    To16(a.ip).Some? && !IsUnspecified(a.ip) && 0 < a.port <= 65535
  }

  // ----- Building -------------------------------------------------------------------------

  /** Addresses and ports as they follow the 16 fixed bytes. */
  function AddressBlock(src: seq<Byte>, dst: seq<Byte>, srcPort: int, dstPort: int): seq<Byte>
  {
    src + dst + BigEndian(srcPort % 0x1_0000, 2) + BigEndian(dstPort % 0x1_0000, 2)
  }

  /** An envelope whose length field covers the address block and any extension. */
  function Envelope(family: Byte, block: seq<Byte>, extension: seq<Byte>): seq<Byte>
  {
    SIGNATURE + [0x21, family] + BigEndian(|block| + |extension|, 2) + block + extension
  }

  /** The family byte and address block for two endpoints: IPv4 only if both are. */
  function Addressing(src: Endpoint, dst: Endpoint): Option<(Byte, seq<Byte>)>
  {
    if src.port < 1 || dst.port < 1 then None
    else if To4(src.ip).Some? && To4(dst.ip).Some? then
      Some((0x12, AddressBlock(To4(src.ip).value, To4(dst.ip).value, src.port, dst.port)))
    else if To16(src.ip).Some? && To16(dst.ip).Some? then
      Some((0x22, AddressBlock(To16(src.ip).value, To16(dst.ip).value, src.port, dst.port)))
    else None
  }

  lemma EnvelopeLayout(family: Byte, src: seq<Byte>, dst: seq<Byte>, srcPort: int, dstPort: int)
    requires |src| == |dst| <= 16
    ensures var b, n := Envelope(family, AddressBlock(src, dst, srcPort, dstPort), []), |src|;
            && |b| == 20 + 2 * n && b[13] == family
            && b[..12] == [0x0D, 0x0A, 0x0D, 0x0A, 0x00, 0x0D, 0x0A, 0x51, 0x55, 0x49, 0x54, 0x0A]
            && b[12] == 0x21 && b[14] == 0 && b[15] == |b| - 16
            && b[16..16 + n] == src && b[16 + n..16 + 2 * n] == dst
            && FromBigEndian(b[16 + 2 * n..18 + 2 * n]) == srcPort % 0x1_0000
            && FromBigEndian(b[18 + 2 * n..]) == dstPort % 0x1_0000
  {
    assert BigEndian(2 * |src| + 4, 2) == [0, 2 * |src| + 4];
    hide BigEndian, FromBigEndian, AddressBlock;
    BlockLayout(src, dst, srcPort, dstPort);
    var block, n := AddressBlock(src, dst, srcPort, dstPort), |src|;
    var b := Envelope(family, block, []);
    assert b[14..16] == BigEndian(2 * n + 4, 2) && b[16..] == block;
    assert b[16..16 + n] == block[..n] && b[16 + n..16 + 2 * n] == block[n..2 * n];
    assert b[16 + 2 * n..18 + 2 * n] == block[2 * n..2 * n + 2] && b[18 + 2 * n..] == block[2 * n + 2..];
  }

  lemma BlockLayout(src: seq<Byte>, dst: seq<Byte>, srcPort: int, dstPort: int)
    requires |src| == |dst|
    ensures var b, n := AddressBlock(src, dst, srcPort, dstPort), |src|;
            && |b| == 2 * n + 4 && b[..n] == src && b[n..2 * n] == dst
            && FromBigEndian(b[2 * n..2 * n + 2]) == srcPort % 0x1_0000
            && FromBigEndian(b[2 * n + 2..]) == dstPort % 0x1_0000
  {
    Limits();
    DecodeEncoded(srcPort % 0x1_0000, 2);
    DecodeEncoded(dstPort % 0x1_0000, 2);
    hide BigEndian, FromBigEndian;
    var b, n := AddressBlock(src, dst, srcPort, dstPort), |src|;
    assert b[2 * n..2 * n + 2] == BigEndian(srcPort % 0x1_0000, 2);
    assert b[2 * n + 2..] == BigEndian(dstPort % 0x1_0000, 2);
  }

  /** Fills the header in place. */
  method BuildV2Header(src: Endpoint, dst: Endpoint) returns (r: Option<array<Byte>>)
    ensures r.Some? <==> Addressing(src, dst).Some?
    ensures r.Some? ==>
              && fresh(r.value)
              && r.value[..] == Envelope(Addressing(src, dst).value.0, Addressing(src, dst).value.1, [])
    // Signature, version 2 PROXY, UDP over IPv4 or IPv6, length, both addresses and both ports.
    ensures r.Some? ==>
              var b, n := r.value[..], (r.value.Length - 20) / 2;
              && (if To4(src.ip).Some? && To4(dst.ip).Some? then |b| == 28 && b[13] == 0x12
                  else |b| == 52 && b[13] == 0x22)
              && b[..12] == [0x0D, 0x0A, 0x0D, 0x0A, 0x00, 0x0D, 0x0A, 0x51, 0x55, 0x49, 0x54, 0x0A]
              && b[12] == 0x21 && b[14] == 0 && b[15] == |b| - 16
              && Some(b[16..16 + n]) == (if n == 4 then To4(src.ip) else To16(src.ip))
              && Some(b[16 + n..16 + 2 * n]) == (if n == 4 then To4(dst.ip) else To16(dst.ip))
              && FromBigEndian(b[16 + 2 * n..18 + 2 * n]) == src.port % 0x1_0000
              && FromBigEndian(b[18 + 2 * n..]) == dst.port % 0x1_0000
  {
    if src.port < 1 || dst.port < 1 {
      return None;
    }
    var src4, dst4 := To4(src.ip), To4(dst.ip);
    if src4.Some? && dst4.Some? {
      var header := Fill(0x12, src4.value, dst4.value, src.port, dst.port);
      EnvelopeLayout(0x12, src4.value, dst4.value, src.port, dst.port);
      return Some(header);
    }
    var src6, dst6 := To16(src.ip), To16(dst.ip);
    if src6.Some? && dst6.Some? {
      var header := Fill(0x22, src6.value, dst6.value, src.port, dst.port);
      EnvelopeLayout(0x22, src6.value, dst6.value, src.port, dst.port);
      return Some(header);
    }
    return None;
  }

  method Fill(family: Byte, src: seq<Byte>, dst: seq<Byte>, srcPort: int, dstPort: int) returns (header: array<Byte>)
    requires |src| == |dst|
    ensures fresh(header) && header[..] == Envelope(family, AddressBlock(src, dst, srcPort, dstPort), [])
  {
    hide BigEndian, Envelope, AddressBlock;
    var n := 2 * |src| + 4;
    header := new Byte[16 + n];
    Begin(header, family);
    ghost var w := SIGNATURE + [0x21, family];
    PutNext(header, 14, n, w);
    w := w + BigEndian(n, 2);
    CopyNext(header, 16, src, w);
    w := w + src;
    CopyNext(header, 16 + |src|, dst, w);
    w := w + dst;
    PutNext(header, 16 + 2 * |src|, srcPort % 0x1_0000, w);
    w := w + BigEndian(srcPort % 0x1_0000, 2);
    PutNext(header, 18 + 2 * |src|, dstPort % 0x1_0000, w);
    w := w + BigEndian(dstPort % 0x1_0000, 2);
    assert header[..] == header[..16 + n] == w;
    Layout(family, src, dst, srcPort, dstPort);
  }

  method Begin(header: array<Byte>, family: Byte)
    requires header.Length >= 16
    modifies header
    ensures header[..14] == SIGNATURE + [0x21, family]
  {
    CopyNext(header, 0, SIGNATURE, []);
    header[12], header[13] := 0x21, family;
    assert header[..14] == header[..12] + [header[12], header[13]];
  }

  lemma Layout(family: Byte, src: seq<Byte>, dst: seq<Byte>, srcPort: int, dstPort: int)
    requires |src| == |dst|
    ensures SIGNATURE + [0x21, family] + BigEndian(2 * |src| + 4, 2) + src + dst
            + BigEndian(srcPort % 0x1_0000, 2) + BigEndian(dstPort % 0x1_0000, 2)
            == Envelope(family, AddressBlock(src, dst, srcPort, dstPort), [])
  {
    hide BigEndian;
    var block := AddressBlock(src, dst, srcPort, dstPort);
    assert |block| == 2 * |src| + 4;
    assert block + [] == block;
  }

  /** copy(buf[at:], s) after the bytes written so far. */
  method CopyNext(buf: array<Byte>, at: nat, s: seq<Byte>, ghost written: seq<Byte>)
    requires at + |s| <= buf.Length && buf[..at] == written
    modifies buf
    ensures buf[..at + |s|] == written + s
  {
    Copy(buf, at, s);
  }

  method PutNext(buf: array<Byte>, at: nat, n: nat, ghost written: seq<Byte>)
    requires at + 2 <= buf.Length && buf[..at] == written
    modifies buf
    ensures buf[..at + 2] == written + BigEndian(n, 2)
  {
    PutBigEndian(buf, at, n, 2);
  }

  // ----- Parsing --------------------------------------------------------------------------

  predicate HasPrefix(data: seq<Byte>, prefix: seq<Byte>)
  {
    |data| >= |prefix| && data[..|prefix|] == prefix
  }

  /** `v1` stands for the text form's parser. */
  function ParseHeader(data: seq<Byte>, v1: seq<Byte> -> Parsed): Parsed
  {
    if HasPrefix(data, SIGNATURE) then ParseV2(data)
    else if HasPrefix(data, V1_PREFIX) then v1(data)
    else Ok((None, 0))
  }

  function ParseV2(data: seq<Byte>): Parsed
  {
    if |data| < 16 then Err(HeaderTooShort)
    else
      var command := data[12] % 16;
      if data[12] / 16 != 2 || command > 1 then Err(InvalidHeader)
      else
        var total := 16 + FromBigEndian(data[14..16]);
        if |data| < total then Err(HeaderTooShort)
        else if command == 0 || data[13] / 16 == 0 then Ok((None, total))
        else if data[13] / 16 == 1 then
          if total - 16 < 12 then Err(InvalidHeader)
          else Checked(Endpoint(MAPPED + data[16..20], FromBigEndian(data[24..26])), total)
        else if data[13] / 16 == 2 then
          if total - 16 < 36 then Err(InvalidHeader)
          else Checked(Endpoint(data[16..32], FromBigEndian(data[48..50])), total)
        else Err(InvalidHeader)
  }

  function Checked(a: Endpoint, total: nat): Parsed
  {
    if ValidAddress(a) then Ok((Some(a), total)) else Err(InvalidAddress)
  }

  lemma EnvelopeFields(family: Byte, block: seq<Byte>, extension: seq<Byte>, payload: seq<Byte>)
    requires |block| + |extension| < 0x1_0000
    ensures var d := Envelope(family, block, extension) + payload;
            && HasPrefix(d, SIGNATURE) && d[12] == 0x21 && d[13] == family
            && FromBigEndian(d[14..16]) == |block| + |extension|
            && d[16..16 + |block|] == block
  {
    Limits();
    DecodeEncoded(|block| + |extension|, 2);
    hide BigEndian, FromBigEndian;
    var d := Envelope(family, block, extension) + payload;
    assert d[14..16] == BigEndian(|block| + |extension|, 2);
  }

  lemma BlockFields(src: seq<Byte>, dst: seq<Byte>, srcPort: int, dstPort: int)
    requires |src| == |dst|
    ensures var b, n := AddressBlock(src, dst, srcPort, dstPort), |src|;
            && b[..n] == src && FromBigEndian(b[2 * n..2 * n + 2]) == srcPort % 0x1_0000
  {
    Limits();
    DecodeEncoded(srcPort % 0x1_0000, 2);
    hide BigEndian, FromBigEndian;
    var b, n := AddressBlock(src, dst, srcPort, dstPort), |src|;
    assert b[2 * n..2 * n + 2] == BigEndian(srcPort % 0x1_0000, 2);
  }

  lemma WideIsSame(ip: seq<Byte>)
    requires To4(ip).Some?
    ensures To16(ip) == Some(MAPPED + To4(ip).value)
  {
    if |ip| == 16 {
      assert ip == ip[..12] + ip[12..];
    }
  }

  lemma ParsesFamily(wide: bool, src: seq<Byte>, dst: seq<Byte>, srcPort: int, dstPort: int, extension: seq<Byte>,
                     payload: seq<Byte>)
    requires |src| == |dst| == if wide then 16 else 4
    requires var block := AddressBlock(src, dst, srcPort, dstPort); |block| + |extension| < 0x1_0000
    ensures var block := AddressBlock(src, dst, srcPort, dstPort);
            var envelope := Envelope(if wide then 0x22 else 0x12, block, extension);
            ParseV2(envelope + payload)
            == Checked(Endpoint(if wide then src else MAPPED + src, srcPort % 0x1_0000), |envelope|)
  {
    var block := AddressBlock(src, dst, srcPort, dstPort);
    var d := Envelope(if wide then 0x22 else 0x12, block, extension) + payload;
    EnvelopeFields(if wide then 0x22 else 0x12, block, extension, payload);
    BlockFields(src, dst, srcPort, dstPort);
    hide BigEndian, FromBigEndian, Checked, Envelope, AddressBlock;
    assert d[16..16 + |src|] == d[16..16 + |block|][..|src|];
    assert d[16 + 2 * |src|..18 + 2 * |src|] == d[16..16 + |block|][2 * |src|..2 * |src| + 2];
  }

  /** What the receiver reads from a built header with any extension and payload: the source,
      its port reduced to 16 bits, and the exact start of the payload; or an invalid address,
      exactly when the source is unspecified or the reduced port is zero. */
  lemma EnvelopeRoundTrip(src: Endpoint, dst: Endpoint, extension: seq<Byte>, payload: seq<Byte>,
                          v1: seq<Byte> -> Parsed)
    requires Addressing(src, dst).Some? && |Addressing(src, dst).value.1| + |extension| < 0x1_0000
    ensures var (family, block) := Addressing(src, dst).value;
            var envelope := Envelope(family, block, extension);
            ParseHeader(envelope + payload, v1)
            == if IsUnspecified(src.ip) || src.port % 0x1_0000 == 0 then Err(InvalidAddress)
               else Ok((Some(Endpoint(To16(src.ip).value, src.port % 0x1_0000)), |envelope|))
  {
    hide AddressBlock, ParseV2, Envelope;
    var (family, block) := Addressing(src, dst).value;
    EnvelopeFields(family, block, extension, payload);
    if To4(src.ip).Some? && To4(dst.ip).Some? {
      WideIsSame(src.ip);
      ParsesFamily(false, To4(src.ip).value, To4(dst.ip).value, src.port, dst.port, extension, payload);
    } else {
      ParsesFamily(true, To16(src.ip).value, To16(dst.ip).value, src.port, dst.port, extension, payload);
    }
  }

  /** So for a specified source and ports in 1..65535 the source comes back unchanged. */
  lemma SpecifiedSourceReturns(src: Endpoint, dst: Endpoint, extension: seq<Byte>, payload: seq<Byte>,
                               v1: seq<Byte> -> Parsed)
    requires ValidAddress(src) && To16(dst.ip).Some? && 0 < dst.port <= 65535 && |extension| < 0x1_0000 - 36
    ensures Addressing(src, dst).Some?
    ensures var (family, block) := Addressing(src, dst).value;
            var r := ParseHeader(Envelope(family, block, extension) + payload, v1);
            && r.Ok? && r.value.0 == Some(Endpoint(To16(src.ip).value, src.port))
            && (Envelope(family, block, extension) + payload)[r.value.1..] == payload
  {
    hide ParseHeader, Envelope, BigEndian;
    EnvelopeRoundTrip(src, dst, extension, payload, v1);
  }

  /** A datagram cut anywhere after the signature and before the envelope's end is refused. */
  lemma TruncationIsDetected(src: Endpoint, dst: Endpoint, extension: seq<Byte>, cut: nat, v1: seq<Byte> -> Parsed)
    requires Addressing(src, dst).Some? && |Addressing(src, dst).value.1| + |extension| < 0x1_0000
    requires var (family, block) := Addressing(src, dst).value;
             |SIGNATURE| <= cut < |Envelope(family, block, extension)|
    ensures var (family, block) := Addressing(src, dst).value;
            ParseHeader(Envelope(family, block, extension)[..cut], v1) == Err(HeaderTooShort)
  {
    var (family, block) := Addressing(src, dst).value;
    EnvelopeFields(family, block, extension, []);
    var d := Envelope(family, block, extension);
    assert d + [] == d;
    assert d[..cut][..12] == d[..12];
    if cut >= 16 {
      assert d[..cut][14..16] == d[14..16];
    }
  }
}
