/** The packet codec (pkg/protocol/packet.go). */
module Protocol {
  import opened Bytes

  const HEADER_SIZE: nat := 28
  const MAX_UDP_PAYLOAD: nat := 65507
  const MAX_PACKET_PAYLOAD: nat := MAX_UDP_PAYLOAD - HEADER_SIZE
  const WIRE_MAGIC: seq<Byte> := [0x4C, 0x34, 0x44, 0x50] // "L4DP"
  const VERSION2: Byte := 2

  const CMD_HANDSHAKE_REQ: Byte := 1
  const CMD_HANDSHAKE_RESP: Byte := 2
  const CMD_STUN_PROBE: Byte := 5
  const CMD_PING: Byte := 7
  const CMD_DATA: Byte := 9
  const CMD_PUNCH_INIT: Byte := 11

  datatype Packet = Packet(
    version: Byte,
    cmd: Byte,
    sessionID: U64,
    seqNo: U32,
    timestamp: Int64,
    payload: seq<Byte>)

  datatype WireError = BufferTooShort | InvalidMagic | InvalidVersion | PacketTooLarge | TrailingBytes

  function ClampedLength(n: int): U16
  {
    if n < 0 then 0 else if n > 0xFFFF then 0xFFFF else n
  }

  /** The 28 header bytes for a payload of n bytes. */
  function Header(p: Packet, n: int): (h: seq<Byte>)
    ensures |h| == HEADER_SIZE
  {
    WIRE_MAGIC + [p.version, p.cmd] + BigEndian(p.sessionID, 8) + BigEndian(p.seqNo, 4)
    + BigEndian(ToUnsigned(p.timestamp), 8) + BigEndian(ClampedLength(n), 2)
  }

  function Encode(p: Packet): seq<Byte>
  {
    Header(p, |p.payload|) + p.payload
  }

  /** Fills the header in place, field by field. */
  method MarshalHeader(p: Packet, n: int) returns (buf: array<Byte>)
    ensures fresh(buf) && buf[..] == Header(p, n)
  {
    var m := n;
    if m < 0 {
      m := 0;
    }
    if m > 0xFFFF {
      m := 0xFFFF;
    }
    buf := new Byte[HEADER_SIZE];
    Copy(buf, 0, WIRE_MAGIC);
    buf[4] := p.version;
    buf[5] := p.cmd;
    assert buf[..6] == WIRE_MAGIC + [p.version, p.cmd];
    PutBigEndian(buf, 6, p.sessionID, 8);
    PutBigEndian(buf, 14, p.seqNo, 4);
    PutBigEndian(buf, 18, ToUnsigned(p.timestamp), 8);
    PutBigEndian(buf, 26, m, 2);
  }

  method Marshal(p: Packet) returns (buf: array<Byte>)
    ensures fresh(buf) && buf[..] == Encode(p)
    ensures buf.Length == 28 + |p.payload| && buf[..4] == [0x4C, 0x34, 0x44, 0x50]
    ensures buf[4] == p.version && buf[5] == p.cmd && FromBigEndian(buf[6..14]) == p.sessionID
    ensures FromBigEndian(buf[14..18]) == p.seqNo && FromBigEndian(buf[18..26]) == ToUnsigned(p.timestamp)
    ensures |p.payload| <= 0xFFFF ==> FromBigEndian(buf[26..28]) == |p.payload|
    ensures buf[28..] == p.payload
  {
    buf := new Byte[HEADER_SIZE + |p.payload|];
    var header := MarshalHeader(p, |p.payload|);
    Copy(buf, 0, header[..]);
    if |p.payload| > 0 {
      Copy(buf, HEADER_SIZE, p.payload);
    }
    WireLayout(p, buf[..]);
  }

  /** The fields at their offsets. */
  lemma WireLayout(p: Packet, wire: seq<Byte>)
    requires wire == Encode(p)
    ensures |wire| == 28 + |p.payload| && wire[..4] == [0x4C, 0x34, 0x44, 0x50]
    ensures wire[4] == p.version && wire[5] == p.cmd && FromBigEndian(wire[6..14]) == p.sessionID
    ensures FromBigEndian(wire[14..18]) == p.seqNo
    ensures FromBigEndian(wire[18..26]) == ToUnsigned(p.timestamp)
    ensures |p.payload| <= 0xFFFF ==> FromBigEndian(wire[26..28]) == |p.payload|
    ensures wire[28..] == p.payload
  {
    HeaderFields(p, |p.payload|, p.payload);
    HeaderValues(p, |p.payload|);
    Limits();
  }

  function Unmarshal(data: seq<Byte>): Result<Packet, WireError>
  {
    if |data| < HEADER_SIZE then Err(BufferTooShort)
    else if data[0..4] != WIRE_MAGIC then Err(InvalidMagic)
    else if data[4] != VERSION2 then Err(InvalidVersion)
    else
      Limits();
      var payloadLen := FromBigEndian(data[26..28]);
      if payloadLen > MAX_PACKET_PAYLOAD then Err(PacketTooLarge)
      else if |data| < HEADER_SIZE + payloadLen then Err(BufferTooShort)
      else if |data| != HEADER_SIZE + payloadLen then Err(TrailingBytes)
      else Ok(Packet(data[4], data[5], FromBigEndian(data[6..14]), FromBigEndian(data[14..18]),
                     ToSigned(FromBigEndian(data[18..26])), data[28..]))
  }

  lemma HeaderFields(p: Packet, n: int, rest: seq<Byte>)
    ensures var d := Header(p, n) + rest;
            && d[0..4] == WIRE_MAGIC && d[4] == p.version && d[5] == p.cmd
            && d[6..14] == BigEndian(p.sessionID, 8)
            && d[14..18] == BigEndian(p.seqNo, 4)
            && d[18..26] == BigEndian(ToUnsigned(p.timestamp), 8)
            && d[26..28] == BigEndian(ClampedLength(n), 2)
            && d[28..] == rest
  {
  }

  lemma HeaderValues(p: Packet, n: int)
    ensures FromBigEndian(BigEndian(p.sessionID, 8)) == p.sessionID
    ensures FromBigEndian(BigEndian(p.seqNo, 4)) == p.seqNo
    ensures FromBigEndian(BigEndian(ToUnsigned(p.timestamp), 8)) == ToUnsigned(p.timestamp)
    ensures FromBigEndian(BigEndian(ClampedLength(n), 2)) == ClampedLength(n)
  {
    Limits();
    DecodeEncoded(p.sessionID, 8);
    DecodeEncoded(p.seqNo, 4);
    DecodeEncoded(ToUnsigned(p.timestamp), 8);
    DecodeEncoded(ClampedLength(n), 2);
  }

  lemma EncodedDecodes(p: Packet)
    requires p.version == VERSION2 && |p.payload| <= MAX_PACKET_PAYLOAD
    ensures Unmarshal(Encode(p)) == Ok(p)
  {
    HeaderFields(p, |p.payload|, p.payload);
    HeaderValues(p, |p.payload|);
  }

  lemma DecodedEncodes(p: Packet, data: seq<Byte>)
    requires Unmarshal(data) == Ok(p)
    ensures p.version == VERSION2 && |p.payload| <= MAX_PACKET_PAYLOAD
    ensures data == Encode(p)
  {
    Limits();
    EncodeDecoded(data[6..14]);
    EncodeDecoded(data[14..18]);
    EncodeDecoded(data[18..26]);
    EncodeDecoded(data[26..28]);
    assert data == data[0..4] + [data[4], data[5]] + data[6..14] + data[14..18]
                   + data[18..26] + data[26..28] + data[28..];
  }

  /** The datagrams that decode to p are exactly its encoding, and only version 2 packets
      with a payload that fits a UDP datagram have one. */
  lemma CodecIsExact(p: Packet, data: seq<Byte>)
    ensures Unmarshal(data) == Ok(p)
            <==> p.version == VERSION2 && |p.payload| <= MAX_PACKET_PAYLOAD && data == Encode(p)
  {
    if p.version == VERSION2 && |p.payload| <= MAX_PACKET_PAYLOAD {
      EncodedDecodes(p);
    }
    if Unmarshal(data) == Ok(p) {
      DecodedEncodes(p, data);
    }
  }

  /** A longer payload marshals to a datagram the receiver refuses as too large. */
  lemma OversizeIsRefused(p: Packet)
    requires p.version == VERSION2 && |p.payload| > MAX_PACKET_PAYLOAD
    ensures Unmarshal(Encode(p)) == Err(PacketTooLarge)
  {
    HeaderFields(p, |p.payload|, p.payload);
    HeaderValues(p, |p.payload|);
  }

  /** The header used as associated data binds every packet field and the length. */
  lemma HeaderBindsFields(p: Packet, q: Packet, n: U16, m: U16)
    requires Header(p, n) == Header(q, m)
    ensures n == m && p == q.(payload := p.payload)
  {
    HeaderFields(p, n, []);
    HeaderFields(q, m, []);
    assert Header(p, n) + [] == Header(q, m) + [];
    HeaderValues(p, n);
    HeaderValues(q, m);
    assert ToSigned(ToUnsigned(p.timestamp)) == p.timestamp;
    assert ToSigned(ToUnsigned(q.timestamp)) == q.timestamp;
  }

  /** Source Engine traffic: out-of-band packets, or anything of eight bytes or more. */
  predicate IsL4D2Packet(payload: seq<Byte>)
  {
    && 4 <= |payload| <= MAX_UDP_PAYLOAD
    && (payload[0..4] == [0xFF, 0xFF, 0xFF, 0xFF] || |payload| >= 8)
  }
}
