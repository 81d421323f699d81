/** One authenticated session (pkg/security/session.go:250-432, 469-474). The AEAD is ideal:
    a log of everything sealed, which is all that opens. */
module SecureSession {
  import opened Bytes
  import opened Protocol
  import opened Replay

  const OVERHEAD: nat := 16
  const MAX_U32: U32 := 0xFFFF_FFFF

  datatype Direction = ClientToServer | ServerToClient | OtherDirection

  datatype SessionError =
    | Wire(error: WireError)
    | SessionMismatch
    | PacketReplay
    | PacketAuth
    | SequenceExhausted
    | SessionClosed
    | TooLong

  /** What the AEAD authenticates together: key, nonce, associated data and ciphertext. */
  datatype Sealed = Sealed(key: seq<Byte>, nonce: seq<Byte>, header: seq<Byte>, box: seq<Byte>)

  type SealLog = map<Sealed, seq<Byte>>

  function MakeNonce(sessionID: U64, n: U32): (nonce: seq<Byte>)
    ensures |nonce| == 12
  {
    BigEndian(sessionID, 8) + BigEndian(n, 4)
  }

  lemma NonceIsInjective(a: U64, m: U32, b: U64, n: U32)
    requires MakeNonce(a, m) == MakeNonce(b, n)
    ensures a == b && m == n
  {
    Limits();
    assert BigEndian(a, 8) == MakeNonce(a, m)[..8] == BigEndian(b, 8);
    assert BigEndian(a, 8) + BigEndian(m, 4) == BigEndian(b, 8) + BigEndian(n, 4);
    assert BigEndian(m, 4) == MakeNonce(a, m)[8..] == BigEndian(n, 4);
    DecodeEncoded(a, 8);
    DecodeEncoded(b, 8);
    DecodeEncoded(m, 4);
    DecodeEncoded(n, 4);
  }

  predicate IsHandshake(p: Packet)
  {
    p.cmd == CMD_HANDSHAKE_REQ || p.cmd == CMD_HANDSHAKE_RESP
  }

  /** The AEAD entry a packet on the wire claims to be. */
  function Claim(key: seq<Byte>, p: Packet): Sealed
  {
    Sealed(key, MakeNonce(p.sessionID, p.seqNo), Header(p, |p.payload|), p.payload)
  }

  /** What a datagram authenticates to for a session: everything Open checks but replay. */
  function Authentic(log: SealLog, key: seq<Byte>, id: U64, wire: seq<Byte>): Option<Packet>
  {
    match Unmarshal(wire)
    case Err(_) => None
    case Ok(p) =>
      if p.sessionID == id && p.seqNo != 0 && !IsHandshake(p) && |p.payload| >= OVERHEAD && Claim(key, p) in log
      then Some(p.(payload := log[Claim(key, p)]))
      else None
  }

  /** Packets Seal takes: current version, numbered, not a handshake, and of this session. */
  predicate Sealable(id: U64, p: Packet)
  {
    p.version == VERSION2 && p.seqNo != 0 && !IsHandshake(p) && p.sessionID == id
  }

  /** A sealed packet opens to itself. */
  lemma SealedOpens(log: SealLog, key: seq<Byte>, id: U64, p: Packet, box: seq<Byte>)
    requires Sealable(id, p) && OVERHEAD <= |box| <= MAX_PACKET_PAYLOAD
    requires Claim(key, p.(payload := box)) in log && log[Claim(key, p.(payload := box))] == p.payload
    ensures Authentic(log, key, id, Encode(p.(payload := box))) == Some(p)
  {
    CodecIsExact(p.(payload := box), Encode(p.(payload := box)));
  }

  /** Nothing opens that was not sealed: the datagram is the encoding of a logged box, and
      the log entry binds every header field. */
  lemma OpensOnlySealed(log: SealLog, key: seq<Byte>, id: U64, wire: seq<Byte>, p: Packet)
    requires Authentic(log, key, id, wire) == Some(p)
    ensures Sealable(id, p)
    ensures exists box :: var q := p.(payload := box);
                          wire == Encode(q) && Claim(key, q) in log && log[Claim(key, q)] == p.payload
  {
    var q := Unmarshal(wire).value;
    CodecIsExact(q, wire);
    assert p.(payload := q.payload) == q;
  }

  lemma NonceReads(nonce: seq<Byte>, id: U64, n: U32)
    ensures nonce == MakeNonce(id, n)
            <==> |nonce| == 12 && FromBigEndian(nonce[..8]) == id && FromBigEndian(nonce[8..]) == n
  {
    Limits();
    DecodeEncoded(id, 8);
    DecodeEncoded(n, 4);
    if nonce == MakeNonce(id, n) {
      assert nonce[..8] == BigEndian(id, 8) && nonce[8..] == BigEndian(n, 4);
    }
    if |nonce| == 12 {
      EncodeDecoded(nonce[..8]);
      EncodeDecoded(nonce[8..]);
      assert nonce == nonce[..8] + nonce[8..];
    }
  }

  /** What an AEAD entry holds for a datagram: the key, a nonce that spells the session ID and
      the number, the 28 header bytes and the rest. */
  predicate EntryFor(e: Sealed, key: seq<Byte>, id: U64, n: U32, wire: seq<Byte>)
  {
    && e.key == key && |e.nonce| == 12 && FromBigEndian(e.nonce[..8]) == id && FromBigEndian(e.nonce[8..]) == n
    && |wire| >= 28 && e.header == wire[..28] && e.box == wire[28..]
  }

  lemma EntryIsClaim(e: Sealed, key: seq<Byte>, q: Packet)
    ensures EntryFor(e, key, q.sessionID, q.seqNo, Encode(q)) <==> e == Claim(key, q)
  {
    hide MakeNonce;
    NonceReads(e.nonce, q.sessionID, q.seqNo);
    assert Encode(q)[..28] == Header(q, |q.payload|) && Encode(q)[28..] == q.payload;
  }

  /** A datagram authenticates to a packet exactly when its header says so and the log has the
      entry of these very bytes under the nonce of that packet's own number. */
  lemma AuthenticExactly(log: SealLog, key: seq<Byte>, id: U64, wire: seq<Byte>, p: Packet)
    ensures Authentic(log, key, id, wire) == Some(p)
            <==> && |wire| >= 28 + OVERHEAD && Unmarshal(wire) == Ok(p.(payload := wire[28..]))
                 && p.sessionID == id && p.seqNo != 0 && p.cmd != 1 && p.cmd != 2
                 && exists e :: EntryFor(e, key, id, p.seqNo, wire) && e in log && log[e] == p.payload
  {
    if Unmarshal(wire).Ok? {
      var q := Unmarshal(wire).value;
      CodecIsExact(q, wire);
      assert q.payload == wire[28..];
      EntryIsClaim(Claim(key, q), key, q);
      if p == q.(payload := p.payload) {
        forall e | EntryFor(e, key, id, p.seqNo, wire) && q.sessionID == id ensures e == Claim(key, q) {
          EntryIsClaim(e, key, q);
        }
      }
    }
  }

  class Session {
    const id: U64
    const aead: Aead
    const recv: ReplayWindow
    var clientKey: seq<Byte>
    var serverKey: seq<Byte>
    var sendSeq: U32
    var closed: bool
    var exhausted: bool

    ghost predicate Valid()
      reads this, recv
    {
      recv.Valid() && (exhausted ==> sendSeq == MAX_U32)
    }

    constructor (id: U64, aead: Aead, clientKey: seq<Byte>, serverKey: seq<Byte>)
      ensures Valid() && fresh(recv) && recv.accepted == {}
      ensures this.id == id && this.aead == aead && this.clientKey == clientKey && this.serverKey == serverKey
      ensures sendSeq == 0 && !closed && !exhausted
    {
      this.id, this.aead, this.clientKey, this.serverKey := id, aead, clientKey, serverKey;
      recv := new ReplayWindow();
      sendSeq, closed, exhausted := 0, false, false;
    }

    function Key(direction: Direction): Option<seq<Byte>>
      reads this
    {
      match direction
      case ClientToServer => Some(clientKey)
      case ServerToClient => Some(serverKey)
      case OtherDirection => None
    }

    /** One uninterrupted call; SequenceThreads covers the interleavings. */
    method NextSeq() returns (r: Result<U32, SessionError>)
      requires Valid()
      modifies this`sendSeq, this`exhausted
      ensures Valid()
      ensures r.Ok? <==> !closed && old(sendSeq) < MAX_U32
      ensures r.Ok? ==> r.value == sendSeq == old(sendSeq) + 1 && exhausted == old(exhausted)
      ensures r.Err? ==> sendSeq == old(sendSeq)
      ensures r.Err? && !closed ==> r.error == SequenceExhausted && exhausted
    {
      if closed {
        return Err(SessionClosed);
      }
      if exhausted {
        return Err(SequenceExhausted);
      }
      var current := sendSeq;
      if current == MAX_U32 {
        exhausted := true;
        return Err(SequenceExhausted);
      }
      sendSeq := current + 1;
      return Ok(current + 1);
    }

    /** Seals one packet; `box` is the ciphertext the AEAD produces. */
    method Seal(p: Packet, direction: Direction, box: seq<Byte>)
      returns (r: Result<seq<Byte>, SessionError>, ghost entry: Sealed)
      requires Valid() && |box| == |p.payload| + OVERHEAD
      // Decryption is a function: one box does not open to two plaintexts.
      requires Key(direction).Some? ==>
                 var c := Claim(Key(direction).value, p.(payload := box));
                 c in aead.log ==> aead.log[c] == p.payload
      modifies aead
      ensures r.Ok? <==> Sealable(id, p) && !closed && direction != OtherDirection && |box| <= MAX_PACKET_PAYLOAD
      // One new entry, whose nonce spells this packet's session and number.
      ensures r.Ok? ==>
                && aead.log == old(aead.log)[entry := p.payload]
                && entry.key == (if direction == ClientToServer then clientKey else serverKey)
                && |entry.nonce| == 12 && FromBigEndian(entry.nonce[..8]) == p.sessionID
                && FromBigEndian(entry.nonce[8..]) == p.seqNo
                && entry.box == box && r.value == entry.header + box && |entry.header| == 28
      ensures r.Ok? ==>
                && r.value == Encode(p.(payload := box))
                && Authentic(aead.log, Key(direction).value, id, r.value) == Some(p)
      ensures r.Err? ==> aead.log == old(aead.log)
    {
      entry := Sealed([], [], [], []);
      if p.version != VERSION2 || p.seqNo == 0 || IsHandshake(p) {
        return Err(PacketAuth), entry;
      }
      if p.sessionID != id {
        return Err(SessionMismatch), entry;
      }
      if closed {
        return Err(SessionClosed), entry;
      }
      var key := Key(direction);
      if key.None? {
        return Err(PacketAuth), entry;
      }
      if |p.payload| + OVERHEAD > MAX_PACKET_PAYLOAD {
        return Err(TooLong), entry;
      }
      var secured := p.(payload := box);
      aead.Record(Claim(key.value, secured), p.payload);
      SealedOpens(aead.log, key.value, id, p, box);
      NonceReads(MakeNonce(p.sessionID, p.seqNo), p.sessionID, p.seqNo);
      return Ok(Encode(secured)), Claim(key.value, secured);
    }

    /** Opens exactly the authentic datagrams whose number is fresh, and only those touch
        the replay window. */
    method Open(data: seq<Byte>, direction: Direction) returns (r: Result<Packet, SessionError>)
      requires Valid()
      modifies recv
      ensures Valid()
      ensures closed || direction == OtherDirection ==> r.Err?
      ensures !closed && direction != OtherDirection ==>
                var a := Authentic(aead.log, Key(direction).value, id, data);
                && (r.Ok? <==> a.Some? && Fresh(old(recv.accepted), a.value.seqNo))
                && (r.Ok? ==> r.value == a.value)
                && (r == Err(PacketReplay) <==> a.Some? && !Fresh(old(recv.accepted), a.value.seqNo))
      ensures recv.accepted == if r.Ok? then old(recv.accepted) + {r.value.seqNo} else old(recv.accepted)
    {
      var decoded := Unmarshal(data);
      if decoded.Err? {
        return Err(Wire(decoded.error));
      }
      var p := decoded.value;
      CodecIsExact(p, data);
      if p.version != VERSION2 || p.sessionID != id || p.seqNo == 0 || IsHandshake(p) {
        return Err(SessionMismatch);
      }
      if closed {
        return Err(SessionClosed);
      }
      var key := Key(direction);
      if key.None? {
        return Err(PacketAuth);
      }
      if |p.payload| < OVERHEAD || Claim(key.value, p) !in aead.log {
        return Err(PacketAuth);
      }
      var plaintext := aead.log[Claim(key.value, p)];
      var ok := recv.Accept(p.seqNo);
      if !ok {
        return Err(PacketReplay);
      }
      return Ok(p.(payload := plaintext));
    }

    method Close()
      modifies this`clientKey, this`serverKey, this`closed
      ensures closed
      ensures !old(closed) ==>
                && clientKey == seq(|old(clientKey)|, _ => 0)
                && serverKey == seq(|old(serverKey)|, _ => 0)
      ensures old(closed) ==> clientKey == old(clientKey) && serverKey == old(serverKey)
    {
      if !closed {
        clientKey := seq(|clientKey|, _ => 0);
        serverKey := seq(|serverKey|, _ => 0);
        closed := true;
      }
    }
  }

  /** The ideal AEAD shared by everyone who seals and opens. */
  class Aead {
    var log: SealLog

    constructor ()
      ensures log == map[]
    {
      log := map[];
    }

    method Record(c: Sealed, plaintext: seq<Byte>)
      modifies this
      ensures log == old(log)[c := plaintext]
    {
      log := log[c := plaintext];
    }
  }
}
