/** The two-message authenticated handshake (pkg/security/session.go:75-276, 476-515).
    HMAC and X25519 are functions with the laws of `Laws`; everything else is as coded. */
module Handshake {
  import opened Bytes
  import opened Protocol

  const KEY_SIZE: nat := 32
  const NONCE_SIZE: nat := 32
  const PUB_SIZE: nat := 32
  const TAG_SIZE: nat := 32
  const MAX_SKEW: Int64 := 120_000_000_000
  const HANDSHAKE_MAGIC: seq<Byte> := [0x4C, 0x34, 0x48, 0x32] // "L4H2"
  const RESPONSE_FIXED: nat := 4 + 2 * NONCE_SIZE + PUB_SIZE + 2
  const MAX_METADATA: nat := MAX_PACKET_PAYLOAD - RESPONSE_FIXED - TAG_SIZE

  datatype Primitives = Primitives(
    mac: (seq<Byte>, seq<Byte>) -> seq<Byte>,
    publicKey: seq<Byte> -> seq<Byte>,
    ecdh: (seq<Byte>, seq<Byte>) -> Option<seq<Byte>>)

  ghost predicate Laws(f: Primitives)
  {
    && (forall k, m :: |f.mac(k, m)| == TAG_SIZE)
    && (forall a :: |f.publicKey(a)| == PUB_SIZE)
    && (forall a, b :: f.ecdh(a, f.publicKey(b)) == f.ecdh(b, f.publicKey(a)))
  }

  datatype HandshakeError = Malformed | Expired | NotAuthentic | MetadataTooLarge | NoSharedSecret

  datatype Pending = Pending(clientNonce: seq<Byte>, privateKey: seq<Byte>, seqNo: U32, timestamp: Int64)
  datatype Request = Request(clientNonce: seq<Byte>, clientPublic: seq<Byte>, seqNo: U32, timestamp: Int64)
  datatype Response = Response(
    sessionID: U64, clientNonce: seq<Byte>, serverNonce: seq<Byte>, serverPublic: seq<Byte>, metadata: seq<Byte>)
  datatype SessionKeys = SessionKeys(id: U64, clientKey: seq<Byte>, serverKey: seq<Byte>)

  function Ascii(s: string): seq<Byte>
  {
    seq(|s|, i requires 0 <= i < |s| => s[i] as int % 0x100)
  }

  // ----- Clock skew ---------------------------------------------------------------------

  /** Go's int64 subtraction. */
  function Sub64(a: Int64, b: Int64): Int64
  {
    var d := a - b;
    if d >= 0x8000_0000_0000_0000 then d - 0x1_0000_0000_0000_0000
    else if d < -0x8000_0000_0000_0000 then d + 0x1_0000_0000_0000_0000
    else d
  }

  function Abs64(v: Int64): Int64
  {
    if v < 0 then
      if v == -0x8000_0000_0000_0000 then 0x7FFF_FFFF_FFFF_FFFF else -v
    else v
  }

  predicate WithinSkew(now: Int64, timestamp: Int64)
  {
    Abs64(Sub64(now, timestamp)) <= MAX_SKEW
  }

  /** The wrapped test is the unbounded one except where the difference wraps almost all
      the way round; no clock before 2^63-120e9 gets there. */
  lemma SkewTest(now: Int64, timestamp: Int64)
    ensures var d := if now < timestamp then timestamp - now else now - timestamp;
            && (WithinSkew(now, timestamp) <==> d <= MAX_SKEW || d >= 0x1_0000_0000_0000_0000 - MAX_SKEW)
            && (0 <= now < 0x8000_0000_0000_0000 - MAX_SKEW ==> (WithinSkew(now, timestamp) <==> d <= MAX_SKEW))
  {
    var d := now - timestamp;
    if d >= 0x8000_0000_0000_0000 {
      assert Abs64(Sub64(now, timestamp)) == 0x1_0000_0000_0000_0000 - d || d == 0x8000_0000_0000_0000;
    }
  }

  // ----- What the messages are ------------------------------------------------------------

  function Tag(f: Primitives, key: seq<Byte>, kind: string, p: Packet, body: seq<Byte>, payloadLen: nat): seq<Byte>
  {
    f.mac(key, Ascii("Left4Proxy/v2/" + kind) + Header(p, payloadLen) + body)
  }

  function RequestBody(nonce: seq<Byte>, public: seq<Byte>): seq<Byte>
  {
    HANDSHAKE_MAGIC + nonce + public
  }

  function ResponseBody(r: Response): seq<Byte>
  {
    HANDSHAKE_MAGIC + r.clientNonce + r.serverNonce + r.serverPublic + BigEndian(|r.metadata|, 2) + r.metadata
  }

  /** p is the packet that carries the authenticated request r. */
  predicate Carries(f: Primitives, key: seq<Byte>, p: Packet, r: Request)
  {
    var body := RequestBody(r.clientNonce, r.clientPublic);
    && |r.clientNonce| == NONCE_SIZE && |r.clientPublic| == PUB_SIZE
    && p == Packet(VERSION2, CMD_HANDSHAKE_REQ, 0, r.seqNo, r.timestamp,
                   body + Tag(f, key, "request", p, body, |body| + TAG_SIZE))
  }

  /** p is the packet that answers request number `seqNo` with the authenticated response r. */
  predicate Answers(f: Primitives, key: seq<Byte>, p: Packet, seqNo: U32, timestamp: Int64, r: Response)
  {
    var body := ResponseBody(r);
    && |r.clientNonce| == NONCE_SIZE && |r.serverNonce| == NONCE_SIZE && |r.serverPublic| == PUB_SIZE
    && |r.metadata| < 0x1_0000
    && p == Packet(VERSION2, CMD_HANDSHAKE_RESP, r.sessionID, seqNo, timestamp,
                   body + Tag(f, key, "response", p, body, |body| + TAG_SIZE))
  }

  /** The session both ends derive from the shared secret. One HMAC block fills a key. */
  function Derive(f: Primitives, psk: seq<Byte>, shared: seq<Byte>,
                  clientNonce: seq<Byte>, serverNonce: seq<Byte>, id: U64): SessionKeys
  {
    var prk := f.mac(clientNonce + serverNonce, shared + psk);
    SessionKeys(id,
                f.mac(prk, Ascii("Left4Proxy/v2/client-to-server") + [1]),
                f.mac(prk, Ascii("Left4Proxy/v2/server-to-client") + [1]))
  }

  /** On the wire a request ends with the HMAC of every byte before it, */
  lemma RequestIsTagged(f: Primitives, key: seq<Byte>, p: Packet, r: Request)
    requires Laws(f) && Carries(f, key, p, r)
    ensures var wire := Encode(p);
            && |wire| == 128 && wire[28..32] == [0x4C, 0x34, 0x48, 0x32]
            && wire[32..64] == r.clientNonce && wire[64..96] == r.clientPublic
            && wire[96..] == f.mac(key, Ascii("Left4Proxy/v2/request") + wire[..96])
  {
    var wire, body := Encode(p), RequestBody(r.clientNonce, r.clientPublic);
    var tag := Tag(f, key, "request", p, body, |body| + TAG_SIZE);
    assert |tag| == TAG_SIZE && wire == Header(p, 100) + body + tag;
    assert wire[..96] == Header(p, 100) + body;
    assert "Left4Proxy/v2/" + "request" == "Left4Proxy/v2/request";
    assert Ascii("Left4Proxy/v2/request") + Header(p, 100) + body == Ascii("Left4Proxy/v2/request") + wire[..96];
  }

  /** and so does a response, under its own label. */
  lemma ResponseIsTagged(f: Primitives, key: seq<Byte>, p: Packet, seqNo: U32, timestamp: Int64, r: Response)
    requires Laws(f) && Answers(f, key, p, seqNo, timestamp, r)
    ensures var wire, n := Encode(p), 130 + |r.metadata|;
            && |wire| == n + 32 && wire[28..32] == [0x4C, 0x34, 0x48, 0x32]
            && wire[32..64] == r.clientNonce && wire[64..96] == r.serverNonce && wire[96..128] == r.serverPublic
            && wire[128..130] == BigEndian(|r.metadata|, 2) && wire[130..n] == r.metadata
            && wire[n..] == f.mac(key, Ascii("Left4Proxy/v2/response") + wire[..n])
  {
    hide BigEndian;
    var wire, body, n := Encode(p), ResponseBody(r), 130 + |r.metadata|;
    var tag := Tag(f, key, "response", p, body, |body| + TAG_SIZE);
    var header := Header(p, |body| + TAG_SIZE);
    assert |tag| == TAG_SIZE && wire == header + body + tag;
    assert wire[..n] == header + body && wire[n..] == tag;
    assert "Left4Proxy/v2/" + "response" == "Left4Proxy/v2/response";
    assert Ascii("Left4Proxy/v2/response") + header + body == Ascii("Left4Proxy/v2/response") + wire[..n];
    assert wire[28..] == body + tag;
    assert wire[28..32] == body[..4] && wire[32..64] == body[4..36] && wire[64..96] == body[36..68];
    assert wire[96..128] == body[68..100] && wire[128..130] == body[100..102] && wire[130..n] == body[102..];
  }

  /** The two directions never share a key but for a collision of the HMAC on two different
      messages, under the key extracted from the secret and both nonces. */
  lemma DirectionsDiffer(f: Primitives, psk: seq<Byte>, shared: seq<Byte>, clientNonce: seq<Byte>,
                         serverNonce: seq<Byte>, id: U64)
    returns (up: seq<Byte>, down: seq<Byte>)
    ensures var keys, prk := Derive(f, psk, shared, clientNonce, serverNonce, id),
                             f.mac(clientNonce + serverNonce, shared + psk);
            keys.id == id && keys.clientKey == f.mac(prk, up) && keys.serverKey == f.mac(prk, down)
    ensures up == Ascii("Left4Proxy/v2/client-to-server") + [1]
    ensures down == Ascii("Left4Proxy/v2/server-to-client") + [1]
    ensures up != down
  {
    up := Ascii("Left4Proxy/v2/client-to-server") + [1];
    down := Ascii("Left4Proxy/v2/server-to-client") + [1];
    assert up[14] != down[14];
  }

  // ----- The four functions ---------------------------------------------------------------

  method NewHandshakeRequest(f: Primitives, key: seq<Byte>, seqNo: U32, privateKey: seq<Byte>, nonce: seq<Byte>,
                             now: Int64)
    returns (r: Result<(Packet, Pending), HandshakeError>)
    requires Laws(f) && |nonce| == NONCE_SIZE
    ensures r.Ok? <==> |key| == KEY_SIZE && seqNo != 0
    ensures r.Ok? ==>
              && Carries(f, key, r.value.0, Request(nonce, f.publicKey(privateKey), seqNo, now))
              && r.value.1 == Pending(nonce, privateKey, seqNo, now)
  {
    if |key| != KEY_SIZE || seqNo == 0 {
      return Err(Malformed);
    }
    var public := f.publicKey(privateKey);
    var p := Packet(VERSION2, CMD_HANDSHAKE_REQ, 0, seqNo, now, []);
    var body := HANDSHAKE_MAGIC;
    body := body + nonce;
    body := body + public;
    var tag := Tag(f, key, "request", p, body, |body| + TAG_SIZE);
    p := p.(payload := body + tag);
    return Ok((p, Pending(nonce, privateKey, seqNo, now)));
  }

  predicate RequestShape(key: seq<Byte>, p: Packet)
  {
    && |key| == KEY_SIZE && p.version == VERSION2 && p.cmd == CMD_HANDSHAKE_REQ && p.sessionID == 0 && p.seqNo != 0
    && |p.payload| == 4 + NONCE_SIZE + PUB_SIZE + TAG_SIZE
  }

  /** Accepts exactly the packets that carry a fresh authenticated request, and returns it. */
  method VerifyHandshakeRequest(f: Primitives, key: seq<Byte>, p: Packet, now: Int64)
    returns (r: Result<Request, HandshakeError>)
    requires Laws(f)
    ensures forall q: Request :: r == Ok(q)
              <==> |key| == KEY_SIZE && q.seqNo != 0 && WithinSkew(now, q.timestamp) && Carries(f, key, p, q)
    ensures r == Err(Expired) <==> RequestShape(key, p) && !WithinSkew(now, p.timestamp)
  {
    forall q: Request | Carries(f, key, p, q)
      ensures RequestBody(q.clientNonce, q.clientPublic) == p.payload[..|p.payload| - TAG_SIZE]
      ensures q.clientNonce == p.payload[4..36] && q.clientPublic == p.payload[36..68]
    {
    }
    if !(|key| == KEY_SIZE && p.version == VERSION2 && p.cmd == CMD_HANDSHAKE_REQ && p.sessionID == 0 && p.seqNo != 0) {
      return Err(Malformed);
    }
    if |p.payload| != 4 + NONCE_SIZE + PUB_SIZE + TAG_SIZE {
      return Err(Malformed);
    }
    if Abs64(Sub64(now, p.timestamp)) > MAX_SKEW {
      return Err(Expired);
    }
    var body := p.payload[..|p.payload| - TAG_SIZE];
    var gotTag := p.payload[|body|..];
    if gotTag != Tag(f, key, "request", p, body, |p.payload|) {
      return Err(NotAuthentic);
    }
    if body[..4] != HANDSHAKE_MAGIC {
      return Err(Malformed);
    }
    var q := Request(body[4..4 + NONCE_SIZE], body[4 + NONCE_SIZE..], p.seqNo, p.timestamp);
    assert body == RequestBody(q.clientNonce, q.clientPublic);
    assert p.payload == body + gotTag;
    return Ok(q);
  }

  method NewHandshakeResponse(f: Primitives, key: seq<Byte>, req: Request, sessionID: U64, metadata: seq<Byte>,
                              privateKey: seq<Byte>, serverNonce: seq<Byte>)
    returns (r: Result<(Packet, SessionKeys), HandshakeError>)
    requires Laws(f) && |serverNonce| == NONCE_SIZE
    requires |req.clientNonce| == NONCE_SIZE && |req.clientPublic| == PUB_SIZE
    ensures r.Ok? <==> |key| == KEY_SIZE && sessionID != 0 && req.seqNo != 0 && |metadata| <= MAX_METADATA
                       && f.ecdh(privateKey, req.clientPublic).Some?
    ensures r.Ok? ==>
              && |r.value.0.payload| <= MAX_PACKET_PAYLOAD
              && Answers(f, key, r.value.0, req.seqNo, req.timestamp,
                         Response(sessionID, req.clientNonce, serverNonce, f.publicKey(privateKey), metadata))
              && r.value.1 == Derive(f, key, f.ecdh(privateKey, req.clientPublic).value, req.clientNonce, serverNonce,
                                     sessionID)
  {
    if |key| != KEY_SIZE || sessionID == 0 || req.seqNo == 0 {
      return Err(Malformed);
    }
    if |metadata| > MAX_METADATA {
      return Err(MetadataTooLarge);
    }
    var shared := f.ecdh(privateKey, req.clientPublic);
    if shared.None? {
      return Err(NoSharedSecret);
    }
    var p := Packet(VERSION2, CMD_HANDSHAKE_RESP, sessionID, req.seqNo, req.timestamp, []);
    var body := HANDSHAKE_MAGIC;
    body := body + req.clientNonce;
    body := body + serverNonce;
    body := body + f.publicKey(privateKey);
    body := body + BigEndian(|metadata| % 0x1_0000, 2);
    body := body + metadata;
    var tag := Tag(f, key, "response", p, body, |body| + TAG_SIZE);
    p := p.(payload := body + tag);
    return Ok((p, Derive(f, key, shared.value, req.clientNonce, serverNonce, sessionID)));
  }

  /** The response fields at their fixed offsets. */
  lemma ResponseFields(r: Response, tag: seq<Byte>)
    requires |r.clientNonce| == NONCE_SIZE && |r.serverNonce| == NONCE_SIZE && |r.serverPublic| == PUB_SIZE
    requires |r.metadata| < 0x1_0000 && |tag| == TAG_SIZE
    ensures var w := ResponseBody(r) + tag;
            && w[..4] == HANDSHAKE_MAGIC && w[4..36] == r.clientNonce && w[36..68] == r.serverNonce
            && w[68..100] == r.serverPublic
            && FromBigEndian(w[100..102]) == |r.metadata| && w[102..|w| - TAG_SIZE] == r.metadata
            && w[..|w| - TAG_SIZE] == ResponseBody(r)
  {
    var w := ResponseBody(r) + tag;
    assert w[100..102] == BigEndian(|r.metadata|, 2);
    Limits();
    DecodeEncoded(|r.metadata|, 2);
  }

  /** Accepts exactly the fresh authenticated answers to the pending request. */
  method VerifyHandshakeResponse(f: Primitives, key: seq<Byte>, p: Packet, pending: Pending, now: Int64)
    returns (r: Result<(Response, SessionKeys), HandshakeError>)
    requires Laws(f)
    ensures forall q: Response :: r.Ok? && r.value.0 == q <==> Acceptable(f, key, p, pending, now, q)
    ensures r.Ok? ==>
              && Acceptable(f, key, p, pending, now, r.value.0)
              && r.value.1 == Derive(f, key, f.ecdh(pending.privateKey, r.value.0.serverPublic).value,
                                     r.value.0.clientNonce, r.value.0.serverNonce, p.sessionID)
  {
    AcceptableParses(f, key, p, pending, now);
    if |key| != KEY_SIZE || pending.seqNo == 0 || p.version != VERSION2
       || p.cmd != CMD_HANDSHAKE_RESP || p.sessionID == 0 {
      return Err(Malformed);
    }
    if p.seqNo != pending.seqNo || p.timestamp != pending.timestamp {
      return Err(NotAuthentic);
    }
    if Abs64(Sub64(now, p.timestamp)) > MAX_SKEW {
      return Err(Expired);
    }
    if |p.payload| < RESPONSE_FIXED + TAG_SIZE {
      return Err(Malformed);
    }
    var body := p.payload[..|p.payload| - TAG_SIZE];
    var gotTag := p.payload[|body|..];
    assert p.payload == body + gotTag;
    if gotTag != Tag(f, key, "response", p, body, |p.payload|) {
      return Err(NotAuthentic);
    }
    var off := 0;
    if body[off..off + 4] != HANDSHAKE_MAGIC {
      return Err(Malformed);
    }
    off := off + 4;
    var clientNonce := body[off..off + NONCE_SIZE];
    off := off + NONCE_SIZE;
    if clientNonce != pending.clientNonce {
      return Err(NotAuthentic);
    }
    var serverNonce := body[off..off + NONCE_SIZE];
    off := off + NONCE_SIZE;
    var serverPublic := body[off..off + PUB_SIZE];
    off := off + PUB_SIZE;
    assert off == 100 && body[100..102] == p.payload[100..102];
    var metadataLen := FromBigEndian(body[off..off + 2]);
    off := off + 2;
    if metadataLen != |body| - off {
      return Err(Malformed);
    }
    var metadata := body[off..];
    var shared := f.ecdh(pending.privateKey, serverPublic);
    if shared.None? {
      return Err(NoSharedSecret);
    }
    var q := Response(p.sessionID, clientNonce, serverNonce, serverPublic, metadata);
    Reassembles(p.sessionID, body);
    return Ok((q, Derive(f, key, shared.value, clientNonce, serverNonce, p.sessionID)));
  }

  predicate Acceptable(f: Primitives, key: seq<Byte>, p: Packet, pending: Pending, now: Int64, q: Response)
  {
    && |key| == KEY_SIZE && pending.seqNo != 0 && p.sessionID != 0 && WithinSkew(now, p.timestamp)
    && Answers(f, key, p, pending.seqNo, pending.timestamp, q)
    && q.clientNonce == pending.clientNonce
    && f.ecdh(pending.privateKey, q.serverPublic).Some?
  }

  function ParsedResponse(p: Packet): Option<Response>
  {
    if |p.payload| < RESPONSE_FIXED + TAG_SIZE then None
    else
      var body := p.payload[..|p.payload| - TAG_SIZE];
      Some(Response(p.sessionID, body[4..36], body[36..68], body[68..100], body[102..]))
  }

  lemma Reassembles(id: U64, body: seq<Byte>)
    requires |body| >= RESPONSE_FIXED && body[..4] == HANDSHAKE_MAGIC
    requires FromBigEndian(body[100..102]) == |body| - RESPONSE_FIXED
    ensures |body| - RESPONSE_FIXED < 0x1_0000
    ensures body == ResponseBody(Response(id, body[4..36], body[36..68], body[68..100], body[102..]))
  {
    Limits();
    EncodeDecoded(body[100..102]);
    assert body == body[..4] + body[4..36] + body[36..68] + body[68..100] + body[100..102] + body[102..];
  }

  lemma AcceptableParses(f: Primitives, key: seq<Byte>, p: Packet, pending: Pending, now: Int64)
    requires Laws(f)
    ensures forall q: Response | Acceptable(f, key, p, pending, now, q) ::
              && ParsedResponse(p) == Some(q) && p.payload[..4] == HANDSHAKE_MAGIC
              && FromBigEndian(p.payload[100..102]) == |p.payload| - TAG_SIZE - RESPONSE_FIXED
              && ResponseBody(q) == p.payload[..|p.payload| - TAG_SIZE]
  {
    forall q: Response | Acceptable(f, key, p, pending, now, q)
      ensures && ParsedResponse(p) == Some(q) && p.payload[..4] == HANDSHAKE_MAGIC
              && FromBigEndian(p.payload[100..102]) == |p.payload| - TAG_SIZE - RESPONSE_FIXED
              && ResponseBody(q) == p.payload[..|p.payload| - TAG_SIZE]
    {
      var tag := Tag(f, key, "response", p, ResponseBody(q), |ResponseBody(q)| + TAG_SIZE);
      ResponseFields(q, tag);
      assert p.payload == ResponseBody(q) + tag;
      var body := ResponseBody(q);
      assert body[4..36] == q.clientNonce && body[36..68] == q.serverNonce;
      assert body[68..100] == q.serverPublic && body[102..] == q.metadata;
    }
  }

  /** What verifying p against a pending request gives. */
  ghost function Verified(f: Primitives, key: seq<Byte>, p: Packet, pending: Pending, now: Int64): Option<(Response,
                          SessionKeys)>
  {
    var q := ParsedResponse(p);
    if q.Some? && Acceptable(f, key, p, pending, now, q.value) then
      Some((q.value, Derive(f, key, f.ecdh(pending.privateKey, q.value.serverPublic).value,
                            q.value.clientNonce, q.value.serverNonce, p.sessionID)))
    else None
  }

  /** The code's verification computes Verified. */
  lemma VerifiedBy(f: Primitives, key: seq<Byte>, p: Packet, pending: Pending, now: Int64,
                   r: Result<(Response, SessionKeys), HandshakeError>)
    requires Laws(f)
    requires forall q: Response :: r.Ok? && r.value.0 == q <==> Acceptable(f, key, p, pending, now, q)
    requires r.Ok? ==>
               && Acceptable(f, key, p, pending, now, r.value.0)
               && r.value.1 == Derive(f, key, f.ecdh(pending.privateKey, r.value.0.serverPublic).value,
                                      r.value.0.clientNonce, r.value.0.serverNonce, p.sessionID)
    ensures Verified(f, key, p, pending, now) == if r.Ok? then Some(r.value) else None
    ensures r.Ok? ==> r.value.1.id == r.value.0.sessionID
  {
    AcceptableParses(f, key, p, pending, now);
  }

  /** Both messages through the packet codec: inside the clock window both ends finish with
      the same ID, the same two traffic keys and the metadata the server sent. */
  method Agreement(f: Primitives, key: seq<Byte>, seqNo: U32,
                   clientPrivate: seq<Byte>, clientNonce: seq<Byte>, sent: Int64,
                   serverPrivate: seq<Byte>, serverNonce: seq<Byte>, arrived: Int64,
                   sessionID: U64, metadata: seq<Byte>, returned: Int64)
    returns (client: Option<(Response, SessionKeys)>, server: Option<SessionKeys>)
    requires Laws(f) && |clientNonce| == NONCE_SIZE && |serverNonce| == NONCE_SIZE
    ensures client.Some? ==> server == Some(client.value.1)
    ensures client.Some? ==>
              && client.value.0.metadata == metadata
              && client.value.1.id == client.value.0.sessionID == sessionID
    ensures client.Some?
            <==> && |key| == KEY_SIZE && seqNo != 0 && sessionID != 0 && |metadata| <= MAX_METADATA
                 && WithinSkew(arrived, sent) && WithinSkew(returned, sent)
                 && f.ecdh(clientPrivate, f.publicKey(serverPrivate)).Some?
  {
    client, server := None, None;
    var request := NewHandshakeRequest(f, key, seqNo, clientPrivate, clientNonce, sent);
    if request.Err? {
      return;
    }
    var wire := Encode(request.value.0);
    EncodedDecodes(request.value.0);
    var atServer := Unmarshal(wire).value;
    var verified := VerifyHandshakeRequest(f, key, atServer, arrived);
    ghost var expected := Request(clientNonce, f.publicKey(clientPrivate), seqNo, sent);
    assert verified == Ok(expected) <==> WithinSkew(arrived, sent);
    if verified.Err? {
      return;
    }
    RequestIsUnique(f, key, atServer, verified.value, expected);
    var response := NewHandshakeResponse(f, key, verified.value, sessionID, metadata, serverPrivate, serverNonce);
    if response.Err? {
      return;
    }
    server := Some(response.value.1);
    EncodedDecodes(response.value.0);
    var atClient := Unmarshal(Encode(response.value.0)).value;
    var accepted := VerifyHandshakeResponse(f, key, atClient, request.value.1, returned);
    ghost var q := Response(sessionID, clientNonce, serverNonce, f.publicKey(serverPrivate), metadata);
    assert Acceptable(f, key, atClient, request.value.1, returned, q) <==> WithinSkew(returned, sent);
    if accepted.Ok? {
      ResponseIsUnique(f, key, atClient, seqNo, sent, accepted.value.0, q);
      client := Some(accepted.value);
    }
  }

  /** A packet carries at most one request, */
  lemma RequestIsUnique(f: Primitives, key: seq<Byte>, p: Packet, a: Request, b: Request)
    requires Carries(f, key, p, a) && Carries(f, key, p, b)
    ensures a == b
  {
    assert a.clientNonce == p.payload[4..36] == b.clientNonce;
    assert a.clientPublic == p.payload[36..68] == b.clientPublic;
  }

  /** and at most one response. */
  lemma ResponseIsUnique(f: Primitives, key: seq<Byte>, p: Packet, seqNo: U32, timestamp: Int64, a: Response,
                         b: Response)
    requires Laws(f)
    requires Answers(f, key, p, seqNo, timestamp, a) && Answers(f, key, p, seqNo, timestamp, b)
    ensures a == b
  {
    ResponseFields(a, p.payload[|ResponseBody(a)|..]);
    ResponseFields(b, p.payload[|ResponseBody(b)|..]);
  }
}
