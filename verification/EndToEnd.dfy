/** The client's and the server's objects together (pkg/client/client.go:1065-1095, 1507-1544,
    pkg/server/server.go:639-658, 837-1072): after one exchange both ends hold the same keys, and
    what one seals the other opens, or forwards, unchanged. */
module EndToEnd {
  import opened Bytes
  import opened Protocol
  import opened SecureSession
  import opened Handshake
  import opened ServerModel
  import opened ServerTable
  import opened ServerLaws
  import opened ServerNode
  import opened Adoption

  /** Verifying a reply against the pending request it answers gives the keys it was made with. */
  lemma ReplyIsVerified(f: Primitives, authKey: seq<Byte>, q: Request, id: U64, metadata: seq<Byte>,
                        privateKey: seq<Byte>, serverNonce: seq<Byte>, keys: SessionKeys, reply: seq<Byte>,
                        pending: Pending, now: Int64)
    requires Responds(f, authKey, q, id, metadata, privateKey, serverNonce, keys, reply)
    requires Laws(f) && |authKey| == KEY_SIZE && id != 0 && |metadata| <= MAX_METADATA && q.seqNo != 0
    requires q == RequestFor(f, pending)
    ensures Unmarshal(reply).Ok?
    ensures WithinSkew(now, q.timestamp) ==>
              Verified(f, authKey, Unmarshal(reply).value, pending, now)
              == Some((Response(id, q.clientNonce, serverNonce, f.publicKey(privateKey), metadata), keys))
    ensures !WithinSkew(now, q.timestamp) ==> Verified(f, authKey, Unmarshal(reply).value, pending, now) == None
  {
    hide WithinSkew, Derive;
    var r := Response(id, q.clientNonce, serverNonce, f.publicKey(privateKey), metadata);
    var p :| reply == Encode(p) && Answers(f, authKey, p, q.seqNo, q.timestamp, r);
    EncodedDecodes(p);
    if WithinSkew(now, q.timestamp) {
      assert Acceptable(f, authKey, p, pending, now, r);
      AcceptableParses(f, authKey, p, pending, now);
    }
  }

  /** Two ends of one session: the same ID and keys, both open. */
  ghost predicate Paired(a: Session, b: Session)
    reads a, b
  {
    && a != b && a.recv != b.recv && a.aead == b.aead && a.id == b.id && !a.closed && !b.closed
    && a.clientKey == b.clientKey && a.serverKey == b.serverKey
  }

  lemma ClaimsBox(key: seq<Byte>, p: Packet)
    ensures Claim(key, p).box == p.payload
  {
  }

  /** One seals with its next number, and the other opens exactly the packet that was sealed. */
  method Carry(a: Session, b: Session, direction: Direction, cmd: Byte, payload: seq<Byte>, timestamp: Int64,
               box: seq<Byte>)
    returns (got: Option<Packet>)
    requires Paired(a, b) && a.Valid() && b.Valid() && direction != OtherDirection
    requires |box| == |payload| + OVERHEAD <= MAX_PACKET_PAYLOAD && cmd != 1 && cmd != 2
    requires forall e | e in a.aead.log && e.box == box :: a.aead.log[e] == payload
    requires forall x | x in b.recv.accepted :: x <= a.sendSeq
    modifies a`sendSeq, a`exhausted, a.aead, b.recv
    ensures Paired(a, b) && a.Valid() && b.Valid()
    ensures got.Some? <==> old(a.sendSeq) < MAX_U32
    ensures got.Some? ==>
              got.value == Packet(VERSION2, cmd, a.id, old(a.sendSeq) + 1, timestamp, payload)
    ensures forall x | x in b.recv.accepted :: x <= a.sendSeq
  {
    hide Authentic, Claim, Encode, FromBigEndian, Header, Unmarshal;
    got := None;
    var n := a.NextSeq();
    if n.Ok? {
      var p := Packet(VERSION2, cmd, a.id, n.value, timestamp, payload);
      ClaimsBox(a.Key(direction).value, p.(payload := box));
      var wire, entry := a.Seal(p, direction, box);
      var r := b.Open(wire.value, direction);
      got := Some(r.value);
    }
  }

  lemma CarriedRequest(f: Primitives, authKey: seq<Byte>, wire: seq<Byte>, pending: Pending)
    requires Laws(f) && WireCarries(f, authKey, wire, pending)
    ensures Unmarshal(wire).Ok?
    ensures forall now, q :: Authenticates(f, authKey, Unmarshal(wire).value, now, q)
              <==> && q == RequestFor(f, pending) && |authKey| == KEY_SIZE && q.seqNo != 0
                   && WithinSkew(now, q.timestamp)
    ensures |pending.clientNonce| == NONCE_SIZE
  {
    hide Carries, WithinSkew, Laws;
    var q := RequestFor(f, pending);
    var p :| wire == Encode(p) && Carries(f, authKey, p, q);
    CarriesFits(f, authKey, p, q);
    EncodedDecodes(p);
    forall now, r | Authenticates(f, authKey, p, now, r) ensures r == q {
      RequestIsUnique(f, authKey, p, r, q);
    }
  }

  function RequestFor(f: Primitives, pending: Pending): Request
  {
    Request(pending.clientNonce, f.publicKey(pending.privateKey), pending.seqNo, pending.timestamp)
  }

  lemma CarriesFits(f: Primitives, authKey: seq<Byte>, p: Packet, q: Request)
    requires Carries(f, authKey, p, q)
    ensures p.version == VERSION2 && |q.clientNonce| == NONCE_SIZE
    ensures Laws(f) ==> |p.payload| <= MAX_PACKET_PAYLOAD
  {
  }

  /** The server's half: whether it answers, and what any client that made the request makes of it. */
  method Serve(f: Primitives, authKey: seq<Byte>, server: Server, wire: seq<Byte>, ghost pending: Pending, src: Addr,
               via: Option<Addr>, arrived: Int64, metadata: seq<Byte>, serverPrivate: seq<Byte>, serverNonce: seq<Byte>)
    returns (reply: Option<seq<Byte>>, ghost keys: SessionKeys, ghost sess: ClientSession?)
    requires Laws(f) && |serverNonce| == NONCE_SIZE && WireCarries(f, authKey, wire, pending)
    requires server.Valid() && TableInvariant(server.model) && pending.clientNonce !in server.handshakes
    requires CacheInvariant(server.model) && server.model.clock <= arrived
    modifies server.Parts()
    ensures server.Valid() && TableInvariant(server.model)
    ensures server.Parts() == old(server.Parts())
                              + if reply.Some? && sess != null
                                then {sess as object, sess.secure as object, sess.secure.recv as object} else {}
    ensures reply.Some?
            <==> && |authKey| == KEY_SIZE && pending.seqNo != 0 && WithinSkew(arrived, pending.timestamp)
                 && |metadata| <= MAX_METADATA && f.ecdh(pending.privateKey, f.publicKey(serverPrivate)).Some?
    ensures reply.Some? ==>
              && Unmarshal(reply.value).Ok?
              && (forall now: Int64 ::
                    && Verified(f, authKey, Unmarshal(reply.value).value, pending, now).Some?
                       == WithinSkew(now, pending.timestamp)
                    && (WithinSkew(now, pending.timestamp) ==>
                          var v := Verified(f, authKey, Unmarshal(reply.value).value, pending, now).value;
                          v.1 == keys && v.0.sessionID == keys.id))
              && sess != null && fresh(sess) && fresh(sess.secure) && fresh(sess.secure.recv)
              && sess.Starts(keys, src, via, arrived) && sess.secure.aead == server.aead
              && keys.id in server.sessions && server.sessions[keys.id] == sess
  {
    hide WireCarries, Responds, WithinSkew, Verified, Unmarshal, Allows, Shake, TableInvariant,
         Authenticates, Laws, Server.Knows, RequestFor, PartsOf, CacheInvariant, AllSeparate, TableMatches,
         CacheMatches, ClientSession.Represents;
    CarriedRequest(f, authKey, wire, pending);
    RequestFields(f, pending, serverPrivate);
    server.NotKnown(RequestFor(f, pending), arrived);
    var request := Unmarshal(wire).value;
    ghost var req, key, choice;
    reply, req, key, choice, keys, sess :=
      server.HandleHandshake(f, authKey, request, src, via, arrived, metadata, serverPrivate, serverNonce);
    if req.Some? {
      StillBounded(old(server.model), req.value, key, src, arrived, choice, server.model);
    }
    if reply.Some? {
      PartsWith(old(server.made), sess);
      forall now: Int64 {
        ReplyIsVerified(f, authKey, req.value, choice.id, metadata, serverPrivate, serverNonce, keys, reply.value,
                        pending, now);
      }
    }
  }

  lemma StillBounded(s: ServerModel.State, q: Request, key: Option<seq<Byte>>, src: Addr, now: int, choice: Choice,
                     s': ServerModel.State)
    requires TableInvariant(s) && CacheInvariant(s) && s.clock <= now
    requires Allows(s, q, now, choice) && s' == Shake(s, q, key, src, now, choice)
    ensures TableInvariant(s')
  {
    hide TableInvariant, CacheInvariant, Allows, Shake;
    ShakeKeepsTable(s, q, key, src, now, choice);
  }

  lemma RequestFields(f: Primitives, pending: Pending, serverPrivate: seq<Byte>)
    requires Laws(f)
    ensures var q := RequestFor(f, pending);
            && q.clientNonce == pending.clientNonce && q.seqNo == pending.seqNo && q.timestamp == pending.timestamp
            && f.ecdh(serverPrivate, q.clientPublic) == f.ecdh(pending.privateKey, f.publicKey(serverPrivate))
  {
  }
  /** One exchange of a client without a session: it succeeds exactly under these conditions, and
      then the client's session and the one the server stored are the two ends of one session. */
  method Connect(f: Primitives, client: HandshakeClient, server: Server, src: Addr, via: Option<Addr>,
                 sent: Int64, arrived: Int64, returned: Int64, metadata: seq<Byte>,
                 clientPrivate: seq<Byte>, clientNonce: seq<Byte>, serverPrivate: seq<Byte>, serverNonce: seq<Byte>)
    returns (ghost sess: ClientSession?)
    requires Laws(f) && |clientNonce| == NONCE_SIZE && |serverNonce| == NONCE_SIZE
    requires client.Valid() && client.f == f && client.aead == server.aead
    requires client.secureSession == null && client.pendingHandshake.None?
    requires Adoption.Enabled(client.model, Send(sent, clientPrivate, clientNonce))
    requires server.Valid() && TableInvariant(server.model) && clientNonce !in server.handshakes
    requires CacheInvariant(server.model) && server.model.clock <= arrived
    requires client as object !in server.Parts()
    modifies client, server.Parts()
    ensures client.Valid() && server.Valid() && TableInvariant(server.model)
    ensures client.seqNo == (old(client.seqNo) + 1) % 0x1_0000_0000
    ensures client.secureSession != null
            <==> && |client.authKey| == 32 && client.seqNo != 0 && |metadata| <= 65345
                 && WithinSkew(arrived, sent) && WithinSkew(returned, sent)
                 && f.ecdh(clientPrivate, f.publicKey(serverPrivate)).Some?
    ensures client.secureSession != null ==>
              && sess != null && client.sessionID in server.sessions && server.sessions[client.sessionID] == sess
              && Paired(client.secureSession, sess.secure) && client.secureSession.Valid() && sess.secure.Valid()
              && sess.rawSenderAddr == src
              && fresh(client.secureSession) && fresh(client.secureSession.recv)
              && fresh(sess) && fresh(sess.secure) && fresh(sess.secure.recv)
              && client.secureSession !in server.Parts() && client.secureSession.recv !in server.Parts()
              && server.Parts() == old(server.Parts())
                                   + {sess as object, sess.secure as object, sess.secure.recv as object}
              && src in sess.allowedSenders && client.secureSession.aead == server.aead
              && client.secureSession.sendSeq == sess.secure.sendSeq == 0
              && client.secureSession.recv.accepted == sess.secure.recv.accepted == {}
  {
    hide WireCarries, WithinSkew, Verified, Unmarshal, Laws, TableInvariant, CacheInvariant, AdoptionInvariant,
         Adoption.Next, Adoption.Enabled, PartsOf, AllSeparate, TableMatches, CacheMatches, ClientSession.Represents;
    sess := null;
    var wire := client.SendHandshake(sent, clientPrivate, clientNonce);
    if wire.Some? {
      var reply;
      ghost var keys;
      reply, keys, sess := Serve(f, client.authKey, server, wire.value, client.pendingHandshake.value, src, via,
                                 arrived, metadata, serverPrivate, serverNonce);
      if reply.Some? {
        var response := Unmarshal(reply.value).value;
        ghost var parts: set<object> := server.Parts();
        server.PartsExist();
        client.HandleHandshakeResponse(response, returned);
        assert server.Parts() == parts;
        if client.secureSession != null {
          assert client.secureSession as object !in parts && client.secureSession.recv as object !in parts;
        }
      }
    }
  }

  /** What a stored session's client sealed arrives, from a source the session has heard from. */
  lemma SealedArrives(server: Server, sess: ClientSession, log: SealLog, entry: Sealed, wire: seq<Byte>, src: Addr,
                      now: int, q: Packet)
    returns (ref: nat)
    requires server.Valid() && TableInvariant(server.model)
    requires q.sessionID in server.sessions && server.sessions[q.sessionID] == sess
    requires !sess.secure.closed && src in sess.allowedSenders && q.seqNo != 0 && q.cmd != 1 && q.cmd != 2
    requires forall x | x in sess.secure.recv.accepted :: x < q.seqNo
    requires |wire| >= 44 && Unmarshal(wire) == Ok(q.(payload := wire[28..]))
    requires EntryFor(entry, sess.secure.clientKey, q.sessionID, q.seqNo, wire) && entry in log
    requires log[entry] == q.payload
    ensures ref < |server.made| && server.made[ref] == sess && Arrives(server.model, log, wire, src, now, ref, q)
  {
    hide AllSeparate, CacheMatches, PartsOf, Unmarshal, EntryFor;
    ref := server.model.table[q.sessionID];
    assert KeyNames(server.model, q.sessionID);
    assert server.made[ref].Represents(server.model.store[ref]);
  }

  lemma SealedWire(key: seq<Byte>, p: Packet, box: seq<Byte>, entry: Sealed, wire: seq<Byte>)
    requires p.version == VERSION2 && |box| == |p.payload| + OVERHEAD <= MAX_PACKET_PAYLOAD
    requires wire == Encode(p.(payload := box)) == entry.header + box && |entry.header| == 28
    requires entry.key == key && entry.box == box && |entry.nonce| == 12
    requires FromBigEndian(entry.nonce[..8]) == p.sessionID && FromBigEndian(entry.nonce[8..]) == p.seqNo
    ensures |wire| >= 44 && wire[28..] == box && Unmarshal(wire) == Ok(p.(payload := wire[28..]))
    ensures EntryFor(entry, key, p.sessionID, p.seqNo, wire)
  {
    hide FromBigEndian, Unmarshal, Encode;
    EncodedDecodes(p.(payload := box));
  }

  /** Game data a client seals with its next number reaches the game server unchanged, from any
      source its session has heard from, and moves the return path there. */
  method Play(a: Session, sess: ClientSession, server: Server, payload: seq<Byte>, timestamp: Int64, box: seq<Byte>,
              src: Addr, via: Option<Addr>, now: int, target: Option<Addr>, accepts: bool)
    returns (upstream: Option<seq<Byte>>)
    requires a.Valid() && server.Valid() && TableInvariant(server.model)
    requires Paired(a, sess.secure) && a.aead == server.aead && sess.secure.Valid()
    requires a.id in server.sessions && server.sessions[a.id] == sess && src in sess.allowedSenders
    requires a as object !in server.Parts() && a.recv as object !in server.Parts()
    requires a.aead as object !in server.Parts()
    requires IsGameTraffic(payload) && |box| == |payload| + OVERHEAD <= MAX_PACKET_PAYLOAD
    requires forall e | e in a.aead.log && e.box == box :: a.aead.log[e] == payload
    requires forall x | x in sess.secure.recv.accepted :: x <= a.sendSeq
    modifies a`sendSeq, a`exhausted, a.aead, server.Parts()
    ensures a.Valid() && server.Valid() && sess.secure.Valid() && Paired(a, sess.secure)
    ensures unchanged(sess.secure, a.recv)
    ensures forall e | e in a.aead.log :: e in old(a.aead.log) || e.box == box
    ensures old(a.sendSeq) < MAX_U32 ==> upstream == Some(payload) && sess.rawSenderAddr == src
  {
    hide Unmarshal, Encode, Authentic, Claim, Arrives, EntryFor, AllSeparate, TableMatches, CacheMatches, Receive,
         Opened, FromBigEndian, IsGameTraffic, TableInvariant;
    upstream := None;
    var n := a.NextSeq();
    if n.Ok? {
      var p := Packet(VERSION2, CMD_DATA, a.id, n.value, timestamp, payload);
      ClaimsBox(a.clientKey, p.(payload := box));
      var wire;
      ghost var entry;
      var sealed;
      sealed, entry := a.Seal(p, ClientToServer, box);
      wire := sealed.value;
      SealedWire(a.clientKey, p, box, entry, wire);
      ghost var ref := SealedArrives(server, sess, a.aead.log, entry, wire, src, now, p);
      var decoded := Unmarshal(wire).value;
      var replies;
      upstream, replies := server.HandlePacket(wire, decoded, src, via, now, target, accepts);
      server.SessionValid(ref);
    }
  }

  /** The first packet the server seals. */
  method First(a: Session, b: Session, id: U64, payload: seq<Byte>, timestamp: Int64, box: seq<Byte>)
    returns (got: Option<Packet>)
    requires Paired(a, b) && a.Valid() && b.Valid() && a.id == id && a.sendSeq == 0 && b.recv.accepted == {}
    requires |box| == |payload| + OVERHEAD <= MAX_PACKET_PAYLOAD && forall e | e in a.aead.log :: e.box != box
    modifies a`sendSeq, a`exhausted, a.aead, b.recv
    ensures got == Some(Packet(VERSION2, CMD_DATA, id, 1, timestamp, payload))
  {
    got := Carry(a, b, ServerToClient, CMD_DATA, payload, timestamp, box);
  }

  /** From nothing to a game: after one exchange that meets the conditions, what the server seals for
      the client arrives there, and the game data the client seals arrives at the game server. */
  method Conversation(f: Primitives, client: HandshakeClient, server: Server, src: Addr, via: Option<Addr>,
                      sent: Int64, arrived: Int64, returned: Int64, metadata: seq<Byte>, clientPrivate: seq<Byte>,
                      clientNonce: seq<Byte>, serverPrivate: seq<Byte>, serverNonce: seq<Byte>,
                      news: seq<Byte>, newsBox: seq<Byte>, move: seq<Byte>, moveBox: seq<Byte>, timestamp: Int64)
    returns (id: U64, down: Option<Packet>, upstream: Option<seq<Byte>>)
    requires Laws(f) && |clientNonce| == NONCE_SIZE && |serverNonce| == NONCE_SIZE
    requires client.Valid() && client.f == f && client.aead == server.aead
    requires client.secureSession == null && client.pendingHandshake.None?
    requires Adoption.Enabled(client.model, Send(sent, clientPrivate, clientNonce))
    requires server.Valid() && TableInvariant(server.model) && clientNonce !in server.handshakes
    requires CacheInvariant(server.model) && server.model.clock <= arrived
    requires client as object !in server.Parts() && server.aead as object !in server.Parts()
    requires |newsBox| == |news| + OVERHEAD <= MAX_PACKET_PAYLOAD
    requires |moveBox| == |move| + OVERHEAD <= MAX_PACKET_PAYLOAD && IsGameTraffic(move) && moveBox != newsBox
    requires forall e | e in server.aead.log :: e.box != newsBox && e.box != moveBox
    modifies client, server.Parts(), server.aead
    ensures |client.authKey| == 32 && old(client.seqNo) < MAX_U32 && |metadata| <= 65345
            && WithinSkew(arrived, sent) && WithinSkew(returned, sent)
            && f.ecdh(clientPrivate, f.publicKey(serverPrivate)).Some? ==>
              upstream == Some(move) && down == Some(Packet(VERSION2, CMD_DATA, id, 1, timestamp, news))
  {
    hide WithinSkew, TableInvariant, CacheInvariant, Laws, IsGameTraffic, Adoption.Enabled, AdoptionInvariant,
         AllSeparate, TableMatches, CacheMatches, Server.Distinct, Server.Mapped;
    id, down, upstream := 0, None, None;
    ghost var sess := Connect(f, client, server, src, via, sent, arrived, returned, metadata, clientPrivate,
                              clientNonce, serverPrivate, serverNonce);
    if client.secureSession != null {
      var mine, theirs := client.secureSession, server.sessions[client.sessionID];
      id := mine.id;
      upstream := Play(mine, theirs, server, move, timestamp, moveBox, src, via, arrived, None, true);
      down := First(theirs.secure, mine, id, news, timestamp, newsBox);
    }
  }
}
