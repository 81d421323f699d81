/** The server itself (pkg/server/server.go:38-146, 837-1105, 1229-1261, 1383-1455): objects
    updated in place, each handler refining a step of ServerModel. */
module ServerNode {
  import opened Bytes
  import opened Protocol
  import opened SecureSession
  import opened Handshake
  import opened ServerModel
  import opened ServerTable
  import opened ServerLaws

  // ----- The ID search ------------------------------------------------------------------

  lemma AdvanceIsInjective(last: U64, i: nat, j: nat)
    requires i < j < 0x1_0000_0000_0000_0000
    ensures Advance(last, i) != Advance(last, j)
  {
  }

  lemma AdvanceSteps(last: U64, k: nat)
    ensures Advance(last, 0) == last && Advance(last, k + 1) == (Advance(last, k) + 1) % 0x1_0000_0000_0000_0000
  {
  }

  lemma ByNumber(last: U64, taken: set<U64>, j: nat)
    ensures var k := (last + j) % 0x1_0000_0000_0000_0000;
            Advance(last, j) == k && (Usable(taken, Advance(last, j)) <==> k != 0 && k !in taken)
  {
  }

  lemma UsableIs(taken: set<U64>, id: U64)
    ensures Usable(taken, id) <==> id != 0 && id !in taken
  {
  }

  /** Only |taken| + 1 consecutive IDs can be unusable, wrap-around or not. */
  lemma {:induction false} UnusableRun(last: U64, taken: set<U64>, k: nat) returns (seen: set<U64>)
    requires k < 0x1_0000_0000_0000_0000
    requires forall j | 0 < j <= k :: !Usable(taken, Advance(last, j))
    ensures seen == (set j: nat | 0 < j <= k :: Advance(last, j))
    ensures |seen| == k && k <= |taken| + 1
  {
    if k == 0 {
      seen := {};
    } else {
      var before := UnusableRun(last, taken, k - 1);
      seen := before + {Advance(last, k)};
      forall j | 0 < j < k ensures Advance(last, j) != Advance(last, k) {
        AdvanceIsInjective(last, j, k);
      }
    }
    assert seen <= taken + {0};
    SubsetSize(seen, taken + {0});
  }

  /** What the game server is sent because of an event. */
  function Upstream(e: Option<Event>): Option<seq<Byte>>
  {
    if e.Some? && IsGameData(e.value.packet) then Some(e.value.packet.payload) else None
  }

  lemma UpstreamNone()
    ensures Upstream(None) == None
  {
  }

  lemma OpensSameCommand(log: SealLog, key: seq<Byte>, id: U64, wire: seq<Byte>, p: Packet)
    requires Unmarshal(wire) == Ok(p)
    ensures Authentic(log, key, id, wire).Some? ==> Authentic(log, key, id, wire).value.cmd == p.cmd
  {
  }

  /** What any opened packet does to its session, before its command is looked at. */
  function Touched(c: Client, e: Event): Client
  {
    c.(accepted := c.accepted + {e.packet.seqNo as nat}, allowed := c.allowed + {e.src}, lastActive := e.time)
  }

  /** What a client is answered, before sealing: its reflected address, the acknowledgement of a
      PunchInit, or the path label and the echo of a Ping. */
  datatype Reply =
    | StunAck(reflected: Addr)
    | PunchAck
    | PathHint(relayed: bool, timestamp: Int64)
    | Pong(timestamp: Int64)

  /** What session c did for packet q, and what goes upstream and back to the source. */
  ghost predicate Served(c: ClientSession, q: Packet, src: Addr, via: Option<Addr>, now: int, target: Option<Addr>,
                         upstream: Option<seq<Byte>>, replies: seq<Reply>)
    reads c
  {
    && src in c.allowedSenders && c.lastActive == now
    && (if q.cmd == 9 && IsGameTraffic(q.payload) then upstream == Some(q.payload) && c.rawSenderAddr == src
        else upstream == None)
    && (if q.cmd == 5 then
          replies == [StunAck(if via.Some? then via.value
                              else if c.proxySenderAddr == Some(src) then c.realClientAddr else src)]
        else if q.cmd == 7 then
          replies == [PathHint(via.Some? || c.proxySenderAddr == Some(src), q.timestamp), Pong(q.timestamp)]
        else if q.cmd == 11 && target.Some? && target.value.port != 0 then
          && replies == [PunchAck]
          && c.punchTarget == target && c.punchExpiry == now + 30_000_000_000 && c.punchWake
        else replies == [])
  }

  class ClientSession {
    const sessionID: U64
    const secure: Session
    const proxySenderAddr: Option<Addr>
    const realClientAddr: Addr
    var rawSenderAddr: Addr
    var allowedSenders: set<Addr>
    var lastActive: int
    var punchTarget: Option<Addr>
    var punchExpiry: int
    var punchWake: bool
    var punchWorker: bool

    ghost predicate Represents(c: Client)
      reads this, secure, secure.recv
    {
      && secure.Valid()
      && sessionID == secure.id == c.sid
      && secure.closed == c.closed && (!c.closed ==> secure.clientKey == c.key)
      && secure.recv.accepted == c.accepted
      && rawSenderAddr == c.ret && allowedSenders == c.allowed && lastActive == c.lastActive
      && punchTarget == c.punchTarget && punchExpiry == c.punchExpiry
    }

    constructor (secure: Session, src: Addr, via: Option<Addr>, now: int)
      ensures proxySenderAddr == (if via.Some? then Some(src) else None)
      ensures realClientAddr == if via.Some? then via.value else src
      ensures this.secure == secure && sessionID == secure.id
      ensures rawSenderAddr == src && allowedSenders == {src} && lastActive == now
      ensures punchTarget == None && punchExpiry == 0 && !punchWake && !punchWorker
    {
      this.secure, sessionID := secure, secure.id;
      proxySenderAddr := if via.Some? then Some(src) else None;
      realClientAddr := if via.Some? then via.value else src;
      punchWake, punchWorker := false, false;
      rawSenderAddr, allowedSenders, lastActive := src, {src}, now;
      punchTarget, punchExpiry := None, 0;
    }

    /** A new session: both keys, its one source, nothing sent or received yet. */
    ghost predicate Starts(keys: SessionKeys, src: Addr, via: Option<Addr>, now: int)
      reads this, secure, secure.recv
    {
      && sessionID == secure.id == keys.id && !secure.closed && secure.Valid()
      && secure.clientKey == keys.clientKey && secure.serverKey == keys.serverKey
      && secure.sendSeq == 0 && !secure.exhausted && secure.recv.accepted == {}
      && rawSenderAddr == src && allowedSenders == {src} && lastActive == now
      && punchTarget == None && !punchWake && !punchWorker
      && (if via.Some? then proxySenderAddr == Some(src) && realClientAddr == via.value else proxySenderAddr == None)
    }

    predicate AllowsSource(src: Addr)
      reads this
    {
      src in allowedSenders || rawSenderAddr == src
    }

    predicate AllowsPunchMigration(now: int)
      reads this
    {
      punchTarget.Some? && now < punchExpiry
    }

    method AuthorizeSource(src: Addr, now: int)
      modifies this`allowedSenders, this`lastActive
      ensures allowedSenders == old(allowedSenders) + {src} && lastActive == now
    {
      allowedSenders := allowedSenders + {src};
      lastActive := now;
    }

    method SetReturnPath(src: Addr, now: int)
      modifies this`rawSenderAddr, this`allowedSenders, this`lastActive
      ensures rawSenderAddr == src && allowedSenders == old(allowedSenders) + {src} && lastActive == now
    {
      rawSenderAddr := src;
      allowedSenders := allowedSenders + {src};
      lastActive := now;
    }

    method Shut(ghost c: Client)
      requires Represents(c)
      modifies secure
      ensures Represents(c.(closed := true))
    {
      secure.Close();
    }

    /** The client's address, for reflection only. */
    function EffectiveAddress(src: Addr, via: Option<Addr>): Addr
    {
      if via.Some? then via.value else if proxySenderAddr == Some(src) then realClientAddr else src
    }

    /** What an event is answered, always to its own source. */
    function Replies(e: Event, via: Option<Addr>): seq<Reply>
    {
      if e.packet.cmd == CMD_STUN_PROBE then [StunAck(EffectiveAddress(e.src, via))]
      else if IsPunchInit(e) then [PunchAck]
      else if e.packet.cmd == CMD_PING then
        [PathHint(via.Some? || proxySenderAddr == Some(e.src), e.packet.timestamp), Pong(e.packet.timestamp)]
      else []
    }

    /** Opens a datagram and acts on it; `via` is the client a relay reported, `target` the
        endpoint a PunchInit names and `accepts` whether the server still starts tasks. */
    method Handle(wire: seq<Byte>, p: Packet, src: Addr, via: Option<Addr>, now: int, target: Option<Addr>,
                  accepts: bool, ghost ref: nat, ghost c: Client)
      returns (upstream: Option<seq<Byte>>, replies: seq<Reply>, ghost e: Option<Event>)
      requires Represents(c) && Unmarshal(wire) == Ok(p)
      modifies this, secure.recv
      ensures e == OpenedBy(c, ref, secure.aead.log, wire, p, src, now, target)
      ensures Represents(if e.Some? then Applied(c, e.value) else c)
      ensures upstream == Upstream(e)
      ensures replies == if e.Some? then Replies(e.value, via) else []
      ensures e.Some? ==> e.value.ref == ref && Served(this, e.value.packet, src, via, now, target, upstream, replies)
      ensures if e.Some? && IsPunchInit(e.value) then punchWake && punchWorker == (old(punchWorker) || accepts)
              else punchWake == old(punchWake) && punchWorker == old(punchWorker)
    {
      hide IsL4D2Packet, IsHandshake, Authentic, Applied, Upstream, IsPunchInit;
      OpensSameCommand(secure.aead.log, c.key, c.sid, wire, p);
      UpstreamNone();
      upstream, replies, e := None, [], None;
      var authorized := AllowsSource(src);
      if !authorized && p.cmd != CMD_PING && !AllowsPunchMigration(now) {
        return;
      }
      var plain := secure.Open(wire, ClientToServer);
      if plain.Err? {
        return;
      }
      var q := plain.value;
      e := Some(Event(ref, wire, q, src, now, target));
      if !authorized && q.cmd != CMD_PING && !AllowsPunchMigration(now) {
        return;
      }
      AuthorizeSource(src, now);
      upstream, replies := Dispatch(q, src, via, now, target, accepts, e.value, c);
    }

    /** The command of an opened packet whose source is authorized already. */
    method Dispatch(q: Packet, src: Addr, via: Option<Addr>, now: int, target: Option<Addr>, accepts: bool,
                    ghost e: Event, ghost c: Client)
      returns (upstream: Option<seq<Byte>>, replies: seq<Reply>)
      requires e.packet == q && e.src == src && e.time == now && e.target == target
      requires Represents(Touched(c, e))
      modifies this
      ensures Represents(Applied(c, e))
      ensures upstream == Upstream(Some(e)) && replies == Replies(e, via)
      ensures Served(this, q, src, via, now, target, upstream, replies)
      ensures if IsPunchInit(e) then punchWake && punchWorker == (old(punchWorker) || accepts)
              else punchWake == old(punchWake) && punchWorker == old(punchWorker)
    {
      upstream, replies := None, [];
      if q.cmd == CMD_STUN_PROBE {
        replies := [StunAck(EffectiveAddress(src, via))];
      } else if q.cmd == CMD_PUNCH_INIT {
        if target.Some? && target.value.port != 0 {
          punchTarget := target;
          punchExpiry := now + PUNCH_WINDOW;
          var startWorker := !punchWorker;
          if startWorker {
            punchWorker := true;
          }
          replies := [PunchAck];
          punchWake := true;
          if startWorker && !accepts {
            punchWorker := false;
          }
        }
      } else if q.cmd == CMD_PING {
        replies := [PathHint(via.Some? || proxySenderAddr == Some(src), q.timestamp), Pong(q.timestamp)];
      } else if q.cmd == CMD_DATA {
        if IsL4D2Packet(q.payload) {
          SetReturnPath(src, now);
          if punchTarget == Some(src) {
            punchExpiry := now;
          }
          upstream := Some(q.payload);
        }
      }
    }
  }

  /** Receive, once the session is known. */
  lemma ReceivedBy(s: State, log: SealLog, wire: seq<Byte>, p: Packet, src: Addr, now: int, target: Option<Addr>,
                   ref: nat)
    requires Unmarshal(wire) == Ok(p) && p.cmd != CMD_HANDSHAKE_REQ
    requires p.sessionID in s.table && s.table[p.sessionID] == ref < |s.store|
    ensures var e := OpenedBy(s.store[ref], ref, log, wire, p, src, now, target);
            && Opened(s, log, wire, src, now, target) == e
            && Receive(s, log, wire, src, now, target)
               == if e.None? then s
                  else s.(store := s.store[ref := Applied(s.store[ref], e.value)], history := s.history + [e.value])
  {
  }

  lemma NotReceived(s: State, log: SealLog, wire: seq<Byte>, p: Packet, src: Addr, now: int, target: Option<Addr>)
    requires Unmarshal(wire) == Ok(p)
    ensures p.cmd == CMD_HANDSHAKE_REQ || p.sessionID !in s.table ==>
              Opened(s, log, wire, src, now, target) == None && Receive(s, log, wire, src, now, target) == s
  {
  }

  lemma NothingReceived(s: State, log: SealLog, wire: seq<Byte>, src: Addr, now: int, target: Option<Addr>)
    ensures Opened(s, log, wire, src, now, target) == None ==> Receive(s, log, wire, src, now, target) == s
  {
  }

  datatype CacheEntry = CacheEntry(response: seq<Byte>, client: ClientSession, clientPublic: seq<Byte>, created: int)

  /** The session map is the model's table, by index into the sessions made. */
  ghost predicate TableMatches(sessions: map<U64, ClientSession>, made: seq<ClientSession>, table: map<U64, nat>)
  {
    && sessions.Keys == table.Keys
    && forall k | k in sessions :: table[k] < |made| && sessions[k] == made[table[k]]
  }

  ghost predicate CacheMatches(handshakes: map<seq<Byte>, CacheEntry>, made: seq<ClientSession>, cache: map<seq<Byte>,
                               Entry>)
  {
    && handshakes.Keys == cache.Keys
    && forall n | n in handshakes ::
         && cache[n].ref < |made| && handshakes[n].client == made[cache[n].ref]
         && handshakes[n].clientPublic == cache[n].clientPublic && handshakes[n].created == cache[n].created
  }

  lemma TableWithout(sessions: map<U64, ClientSession>, made: seq<ClientSession>, table: map<U64, nat>, k: U64)
    requires TableMatches(sessions, made, table)
    ensures TableMatches(sessions - {k}, made, table - {k})
  {
  }

  lemma TableWith(sessions: map<U64, ClientSession>, made: seq<ClientSession>, table: map<U64, nat>, k: U64,
                  c: ClientSession)
    requires TableMatches(sessions, made, table)
    ensures TableMatches(sessions[k := c], made + [c], table[k := |made|])
  {
  }

  lemma CacheWithout(handshakes: map<seq<Byte>, CacheEntry>, made: seq<ClientSession>, cache: map<seq<Byte>, Entry>,
                     n: seq<Byte>)
    requires CacheMatches(handshakes, made, cache)
    ensures CacheMatches(handshakes - {n}, made, cache - {n})
  {
  }

  lemma CacheWith(handshakes: map<seq<Byte>, CacheEntry>, made: seq<ClientSession>, cache: map<seq<Byte>, Entry>,
                  n: seq<Byte>, e: CacheEntry)
    requires CacheMatches(handshakes, made, cache)
    ensures CacheMatches(handshakes[n := e], made + [e.client], cache[n := Entry(|made|, e.clientPublic, e.created)])
  {
  }

  lemma SameSizes(sessions: map<U64, ClientSession>, handshakes: map<seq<Byte>, CacheEntry>, made: seq<ClientSession>,
                  m: State)
    requires TableMatches(sessions, made, m.table) && CacheMatches(handshakes, made, m.cache)
    ensures |sessions| == |m.table| && |handshakes| == |m.cache|
  {
    assert |sessions.Keys| == |sessions| && |m.table.Keys| == |m.table|;
    assert |handshakes.Keys| == |handshakes| && |m.cache.Keys| == |m.cache|;
  }

  /** Distinct sessions share no mutable part. */
  predicate Separate(c: ClientSession, d: ClientSession)
  {
    c != d && c.secure != d.secure && c.secure.recv != d.secure.recv
  }

  ghost function PartsOf(made: seq<ClientSession>): set<object>
  {
    (set i | 0 <= i < |made| :: made[i] as object) + (set i | 0 <= i < |made| :: made[i].secure as object)
    + (set i | 0 <= i < |made| :: made[i].secure.recv as object)
  }

  /** Each session made is, now, the client the store says. */
  ghost predicate Mirrors(made: seq<ClientSession>, store: seq<Client>)
    reads PartsOf(made)
  {
    |store| == |made| && forall i | 0 <= i < |made| :: made[i].Represents(store[i])
  }

  lemma OwnParts(made: seq<ClientSession>, ref: nat)
    requires ref < |made|
    ensures {made[ref] as object, made[ref].secure as object, made[ref].secure.recv as object} <= PartsOf(made)
  {
  }

  lemma PartsWith(made: seq<ClientSession>, c: ClientSession)
    ensures PartsOf(made + [c]) == PartsOf(made) + {c as object, c.secure as object, c.secure.recv as object}
  {
    assert (made + [c])[|made|] == c;
    forall i | 0 <= i < |made| ensures (made + [c])[i] == made[i] {
    }
  }

  lemma MirrorsWith(made: seq<ClientSession>, store: seq<Client>, c: ClientSession, client: Client)
    requires Mirrors(made, store) && c.Represents(client)
    ensures Mirrors(made + [c], store + [client])
  {
  }

  ghost predicate AllSeparate(made: seq<ClientSession>)
  {
    forall i, j | 0 <= i < j < |made| :: Separate(made[i], made[j])
  }

  /** The choices made when a new session is installed in s. */
  ghost predicate Drawn(s: State, choice: Choice)
  {
    && (|s.table| >= MAX_SESSIONS ==> IsOldestSession(s, choice.evict))
    && (|s.cache| >= CACHE_LIMIT ==> IsOldestEntry(s.cache, choice.drop))
  }

  /** There is always something oldest to pick. */
  lemma SomeChoice(s: State, id: U64) returns (choice: Choice)
    requires TableInvariant(s)
    ensures Drawn(s, choice) && choice.id == id
  {
    choice := Choice(id, 0, []);
    if |s.table| >= MAX_SESSIONS {
      assert s.table.Keys != {};
      var k := Least(s.table.Keys,
                     k => if k in s.table && s.table[k] < |s.store| then s.store[s.table[k]].lastActive else 0);
      assert KeyNames(s, k);
      choice := choice.(evict := k);
    }
    if |s.cache| >= CACHE_LIMIT {
      assert s.cache.Keys != {};
      var n := Least(s.cache.Keys, n => if n in s.cache then s.cache[n].created else 0);
      choice := choice.(drop := n);
    }
  }

  function Established(s: State, q: Request, key: Option<seq<Byte>>, src: Addr, now: int, choice: Choice): State
  {
    if key.None? then s
    else Install(if |s.table| >= MAX_SESSIONS then Evict(s, choice.evict) else s, q, key.value, src, now, choice)
  }

  lemma NothingEstablished(s: State, q: Request, src: Addr, now: int, choice: Choice)
    ensures Established(s, q, None, src, now, choice) == s
  {
  }

  lemma AdmitEstablishes(s: State, q: Request, key: seq<Byte>, src: Addr, now: int, choice: Choice)
    ensures Established(s, q, Some(key), src, now, choice)
            == Install(if |s.table| >= MAX_SESSIONS then Evict(s, choice.evict) else s, q, key, src, now, choice)
    ensures (&& (|s.table| >= MAX_SESSIONS ==> IsOldestSession(s, choice.evict))
             && (|s.cache| >= CACHE_LIMIT ==> IsOldestEntry(s.cache, choice.drop))) ==> Drawn(s, choice)
  {
  }

  lemma DerivedID(f: Primitives, psk: seq<Byte>, shared: seq<Byte>, clientNonce: seq<Byte>, serverNonce: seq<Byte>,
                  id: U64)
    ensures Derive(f, psk, shared, clientNonce, serverNonce, id).id == id
  {
  }

  lemma RespondsWith(f: Primitives, authKey: seq<Byte>, q: Request, id: U64, metadata: seq<Byte>,
                     privateKey: seq<Byte>, serverNonce: seq<Byte>, keys: SessionKeys, p: Packet)
    requires f.ecdh(privateKey, q.clientPublic).Some?
    requires keys == Derive(f, authKey, f.ecdh(privateKey, q.clientPublic).value, q.clientNonce, serverNonce, id)
    requires Answers(f, authKey, p, q.seqNo, q.timestamp,
                     Response(id, q.clientNonce, serverNonce, f.publicKey(privateKey), metadata))
    ensures Responds(f, authKey, q, id, metadata, privateKey, serverNonce, keys, Encode(p))
  {
  }

  lemma ShakeAnswers(s: State, q: Request, key: Option<seq<Byte>>, src: Addr, now: int, choice: Choice)
    requires Resends(s, q, now) || Confuses(s, q, now)
    ensures Allows(s, q, now, choice) && Shake(s, q, key, src, now, choice) == s
  {
  }

  lemma ForgetPicks(s: State, q: Request, choice: Choice)
    requires IsNextID(s.nextID, s.table.Keys, choice.id) && Drawn(Forget(s, q, choice), choice)
    ensures Picks(s, q, choice)
  {
    hide IsNextID;
  }

  lemma EstablishedIsShaken(s: State, q: Request, key: Option<seq<Byte>>, src: Addr, now: int, choice: Choice)
    requires !Resends(s, q, now) && !Confuses(s, q, now)
    requires IsNextID(s.nextID, s.table.Keys, choice.id) && Drawn(Forget(s, q, choice), choice)
    ensures Allows(s, q, now, choice)
    ensures Shake(s, q, key, src, now, choice) == Established(Forget(s, q, choice), q, key, src, now, choice)
  {
    hide Install, Evict, IsNextID, Resends, Confuses, Drawn, Picks;
    ForgetPicks(s, q, choice);
  }

  /** p carries the fresh authenticated request q. */
  ghost predicate Authenticates(f: Primitives, authKey: seq<Byte>, p: Packet, now: Int64, q: Request)
  {
    |authKey| == KEY_SIZE && q.seqNo != 0 && WithinSkew(now, q.timestamp) && Carries(f, authKey, p, q)
  }

  /** The reply is the authenticated response for q, and `keys` what it derives. */
  ghost predicate Responds(f: Primitives, authKey: seq<Byte>, q: Request, id: U64, metadata: seq<Byte>,
                           privateKey: seq<Byte>, serverNonce: seq<Byte>, keys: SessionKeys, reply: seq<Byte>)
  {
    && f.ecdh(privateKey, q.clientPublic).Some?
    && keys == Derive(f, authKey, f.ecdh(privateKey, q.clientPublic).value, q.clientNonce, serverNonce, id)
    && exists p ::
         reply == Encode(p)
         && Answers(f, authKey, p, q.seqNo, q.timestamp,
                    Response(id, q.clientNonce, serverNonce, f.publicKey(privateKey), metadata))
  }

  /** Reap, when only the keys in `done` were visited. */
  function Reaped(s: State, now: int, done: set<U64>): State
  {
    s.(store := seq(|s.store|, i requires 0 <= i < |s.store| =>
         var c := s.store[i];
         if c.sid in done && c.sid in s.table && s.table[c.sid] == i && Idle(s, c.sid, now)
         then c.(closed := true) else c),
       table := map k | k in s.table && !(k in done && Idle(s, k, now)) :: s.table[k])
  }

  lemma ReapedNone(s: State, now: int)
    ensures Reaped(s, now, {}) == s
  {
    assert Reaped(s, now, {}).store == s.store;
    assert Reaped(s, now, {}).table == s.table;
  }

  lemma ReapedAll(s: State, now: int)
    ensures Reaped(s, now, s.table.Keys) == Reap(s, now)
  {
    assert Reaped(s, now, s.table.Keys).store == Reap(s, now).store;
    assert Reaped(s, now, s.table.Keys).table == Reap(s, now).table;
  }

  lemma ReapedStep(s: State, now: int, done: set<U64>, k: U64)
    requires TableInvariant(s) && k in s.table && k !in done
    ensures var r := Reaped(s, now, done);
            && k in r.table && (Idle(r, k, now) <==> Idle(s, k, now))
            && Reaped(s, now, done + {k}) == if Idle(s, k, now) then Evict(r, k) else r
  {
    var r, r' := Reaped(s, now, done), Reaped(s, now, done + {k});
    var e := if Idle(s, k, now) then Evict(r, k) else r;
    assert KeyNames(s, k);
    forall i | 0 <= i < |s.store| ensures r'.store[i] == e.store[i] {
      if s.store[i].sid in s.table {
        assert KeyNames(s, s.store[i].sid);
      }
    }
    assert r'.store == e.store;
    assert r'.table == e.table;
  }

  /** Sweep, when only the keys in `done` were visited. */
  function Swept(s: State, now: int, done: set<seq<Byte>>): State
  {
    s.(cache := map n | n in s.cache
                        && (n in done ==> now - s.cache[n].created <= CACHE_TTL && Present(s, s.cache[n].ref)) ::
                  s.cache[n])
  }

  lemma SweptNone(s: State, now: int)
    ensures Swept(s, now, {}) == s
  {
    assert Swept(s, now, {}).cache == s.cache;
  }

  lemma SweptAll(s: State, now: int)
    ensures Swept(s, now, s.cache.Keys) == Sweep(s, now)
  {
    assert Swept(s, now, s.cache.Keys).cache == Sweep(s, now).cache;
  }

  lemma SweptStep(s: State, now: int, done: set<seq<Byte>>, n: seq<Byte>)
    requires n in s.cache && n !in done
    ensures var r := Swept(s, now, done);
            && n in r.cache && r.cache[n] == s.cache[n] && (Present(r, r.cache[n].ref) <==> Present(s, r.cache[n].ref))
            && Swept(s, now, done + {n})
               == if now - s.cache[n].created > CACHE_TTL || !Present(s, s.cache[n].ref)
                  then r.(cache := r.cache - {n}) else r
  {
    var r, r' := Swept(s, now, done), Swept(s, now, done + {n});
    assert r'.cache == if now - s.cache[n].created > CACHE_TTL || !Present(s, s.cache[n].ref)
                       then r.cache - {n} else r.cache;
  }

  /** Stopped, when only the keys in `done` were visited. */
  function Closing(s: State, done: set<U64>): State
  {
    s.(stopped := true,
       store := seq(|s.store|, i requires 0 <= i < |s.store| =>
         var c := s.store[i];
         if c.sid in done && c.sid in s.table && s.table[c.sid] == i then c.(closed := true) else c))
  }

  lemma ClosingNone(s: State)
    ensures Closing(s, {}) == s.(stopped := true)
  {
    assert Closing(s, {}).store == s.store;
  }

  lemma ClosingAll(s: State)
    ensures Closing(s, s.table.Keys) == Stopped(s)
  {
    assert Closing(s, s.table.Keys).store == Stopped(s).store;
  }

  lemma ClosingStep(s: State, done: set<U64>, k: U64)
    requires TableInvariant(s) && k in s.table && k !in done
    ensures var r := Closing(s, done);
            && r.table == s.table && |r.store| == |s.store| && s.table[k] < |s.store|
            && Closing(s, done + {k}) == r.(store := r.store[s.table[k] := r.store[s.table[k]].(closed := true)])
  {
    var r, r' := Closing(s, done), Closing(s, done + {k});
    assert KeyNames(s, k);
    var e := r.store[s.table[k] := r.store[s.table[k]].(closed := true)];
    forall i | 0 <= i < |s.store| ensures r'.store[i] == e[i] {
      if s.store[i].sid in s.table {
        assert KeyNames(s, s.store[i].sid);
      }
    }
    assert r'.store == e;
  }

  class Server {
    const aead: Aead
    var sessions: map<U64, ClientSession>
    var handshakes: map<seq<Byte>, CacheEntry>
    var nextID: U64
    var stopping: bool
    ghost var made: seq<ClientSession>
    /** The state of ServerModel this server is in. */
    ghost var model: State

    ghost function Parts(): set<object>
      reads this
    {
      {this as object} + PartsOf(made)
    }

    ghost predicate Distinct()
      reads `made
    {
      && (forall i | 0 <= i < |made| :: made[i].secure.aead == aead)
      && AllSeparate(made)
      && this !in PartsOf(made)
    }

    ghost predicate Mapped()
      reads this
    {
      && TableMatches(sessions, made, model.table)
      && CacheMatches(handshakes, made, model.cache)
      && nextID == model.nextID && stopping == model.stopped
    }

    ghost predicate Valid()
      reads Parts()
    {
      Mirrors(made, model.store) && Distinct() && Mapped()
    }

    lemma Unfold()
      requires Valid()
      ensures Mirrors(made, model.store) && |made| == |model.store|
      ensures Distinct()
      ensures Mapped()
    {
    }

    lemma SessionValid(ref: nat)
      requires Valid() && ref < |made|
      ensures made[ref].secure.Valid()
    {
      assert made[ref].Represents(model.store[ref]);
    }

    lemma PartsExist()
      ensures forall o | o in Parts() :: allocated(o)
    {
    }

    lemma UnfoldMaps()
      requires Valid()
      ensures Mirrors(made, model.store) && |made| == |model.store| && Distinct()
      ensures TableMatches(sessions, made, model.table) && CacheMatches(handshakes, made, model.cache)
      ensures nextID == model.nextID && stopping == model.stopped
      ensures AllSeparate(made) && this !in PartsOf(made) && forall i | 0 <= i < |made| :: made[i].secure.aead == aead
    {
    }

    lemma FoldMaps()
      requires Mirrors(made, model.store)
      requires forall i | 0 <= i < |made| :: made[i].secure.aead == aead
      requires AllSeparate(made) && this !in PartsOf(made)
      requires TableMatches(sessions, made, model.table) && CacheMatches(handshakes, made, model.cache)
      requires nextID == model.nextID && stopping == model.stopped
      ensures Valid()
    {
    }

    lemma Fold()
      requires Mirrors(made, model.store)
      requires Distinct()
      requires Mapped()
      ensures Valid()
    {
    }

    constructor (seed: U64, aead: Aead)
      ensures Valid() && model == Initial(seed) && this.aead == aead
    {
      this.aead := aead;
      sessions, handshakes, nextID, stopping := map[], map[], seed, false;
      made, model := [], Initial(seed);
    }

    /** Authenticates and dispatches one datagram; returns the payload for the game server and
        the replies for the sender. A handshake request goes to HandleHandshake. */
    method HandlePacket(wire: seq<Byte>, p: Packet, src: Addr, via: Option<Addr>, now: int, target: Option<Addr>,
                        accepts: bool)
      returns (upstream: Option<seq<Byte>>, replies: seq<Reply>)
      requires Valid() && Unmarshal(wire) == Ok(p)
      modifies Parts()
      ensures Valid() && made == old(made) && forall i | 0 <= i < |made| :: unchanged(made[i].secure)
      ensures model == Receive(old(model), aead.log, wire, src, now, target)
      ensures upstream == Upstream(Opened(old(model), aead.log, wire, src, now, target))
      ensures Opened(old(model), aead.log, wire, src, now, target).None? ==> replies == []
      ensures forall ref: nat, q: Packet | Arrives(old(model), aead.log, wire, src, now, ref, q) ::
                ref < |made| && Served(made[ref], q, src, via, now, target, upstream, replies)
      ensures TableInvariant(old(model)) ==>
                (forall ref: nat, q: Packet :: !Arrives(old(model), aead.log, wire, src, now, ref, q)) ==>
                  upstream == None && replies == [] && model == old(model)
    {
      hide Arrives, Served, TableInvariant, Valid, Unmarshal, IsGameData, Receive, Opened, Upstream;
      UpstreamNone();
      NotReceived(model, aead.log, wire, p, src, now, target);
      ArrivalsOpen(model, wire, src, now, target);
      upstream, replies := None, [];
      SameKeys();
      if p.cmd != CMD_HANDSHAKE_REQ && p.sessionID in sessions {
        ghost var e;
        upstream, replies, e := Deliver(wire, p, src, via, now, target, accepts);
        NothingReceived(old(model), aead.log, wire, src, now, target);
      }
    }

    /** The datagram names a stored session. */
    method Deliver(wire: seq<Byte>, p: Packet, src: Addr, via: Option<Addr>, now: int, target: Option<Addr>,
                   accepts: bool)
      returns (upstream: Option<seq<Byte>>, replies: seq<Reply>, ghost e: Option<Event>)
      requires Valid() && Unmarshal(wire) == Ok(p) && p.cmd != CMD_HANDSHAKE_REQ && p.sessionID in sessions
      modifies Parts()
      ensures Valid() && made == old(made) && forall i | 0 <= i < |made| :: unchanged(made[i].secure)
      ensures e == Opened(old(model), aead.log, wire, src, now, target)
      ensures model == Receive(old(model), aead.log, wire, src, now, target)
      ensures upstream == Upstream(e) && (e.None? ==> replies == [])
      ensures e.Some? ==>
                && e.value.ref < |made|
                && Served(made[e.value.ref], e.value.packet, src, via, now, target, upstream, replies)
    {
      hide Served, Valid, ClientSession.Represents, ClientSession.Replies, AllSeparate, OpenedBy, Applied, Unmarshal,
           IsGameData, Receive, Opened, TableMatches, CacheMatches, Upstream;
      Unfold();
      var sess := sessions[p.sessionID];
      Found(p.sessionID);
      ghost var ref := model.table[p.sessionID];
      ghost var c, before := model.store[ref], model;
      OwnParts(made, ref);
      SharesAead(ref);
      upstream, replies, e := sess.Handle(wire, p, src, via, now, target, accepts, ref, c);
      ghost var changed := if e.Some? then Applied(c, e.value) else c;
      OthersKept(ref);
      assert Mirrors(made, before.store[ref := changed]);
      ReceivedBy(before, aead.log, wire, p, src, now, target, ref);
      model := Receive(before, aead.log, wire, src, now, target);
      ReceiveFrame(before, aead.log, wire, src, now, target);
      assert e.None? ==> before.store[ref := changed] == before.store;
      Fold();
    }

    /** What arrives is what is opened. */
    lemma ArrivalsOpen(s: State, wire: seq<Byte>, src: Addr, now: int, target: Option<Addr>)
      ensures forall ref: nat, q: Packet | Arrives(s, aead.log, wire, src, now, ref, q) ::
                Opened(s, aead.log, wire, src, now, target) == Some(Event(ref, wire, q, src, now, target))
      ensures TableInvariant(s) && Opened(s, aead.log, wire, src, now, target).Some? ==>
                var e := Opened(s, aead.log, wire, src, now, target).value;
                Arrives(s, aead.log, wire, src, now, e.ref, e.packet)
    {
      hide Arrives, Opened, TableInvariant;
      forall ref: nat, q: Packet | Arrives(s, aead.log, wire, src, now, ref, q)
        ensures Opened(s, aead.log, wire, src, now, target) == Some(Event(ref, wire, q, src, now, target))
      {
        ArrivalIsOpened(s, aead.log, wire, src, now, target, ref, q);
      }
      if TableInvariant(s) && Opened(s, aead.log, wire, src, now, target).Some? {
        OpenedHasArrived(s, aead.log, wire, src, now, target);
      }
    }

    lemma SameKeys()
      requires Valid()
      ensures sessions.Keys == model.table.Keys
    {
    }

    lemma Found(k: U64)
      requires TableMatches(sessions, made, model.table) && k in sessions
      ensures k in model.table && model.table[k] < |made| && sessions[k] == made[model.table[k]]
    {
    }

    lemma SharesAead(ref: nat)
      requires Distinct() && ref < |made|
      ensures made[ref].secure.aead == aead
    {
    }

    /** Changing one session leaves the others as they were. */
    twostate lemma OthersKept(ref: nat)
      requires old(Mirrors(made, model.store)) && AllSeparate(made) && ref < |made| && unchanged(this)
      requires forall o | o in PartsOf(made)
                          && o !in {made[ref] as object, made[ref].secure as object, made[ref].secure.recv as object} ::
                 unchanged(o)
      ensures forall i | 0 <= i < |made| && i != ref :: made[i].Represents(model.store[i])
    {
      hide ClientSession.Represents;
      forall i | 0 <= i < |made| && i != ref ensures made[i].Represents(model.store[i]) {
        assert Separate(made[if i < ref then i else ref], made[if i < ref then ref else i]);
        OwnParts(made, i);
        assert old(made[i].Represents(model.store[i]));
      }
    }

    /** Ends within |sessions| + 2 tries on a fresh non-zero ID, even across the wrap. */
    method NextSessionID() returns (id: U64, tries: nat)
      requires |sessions| <= MAX_SESSIONS
      modifies `nextID
      ensures IsNextID(old(nextID), sessions.Keys, id) && nextID == id
      ensures 0 < tries <= |sessions| + 2
      ensures id != 0 && id !in sessions && id == (old(nextID) + tries) % 0x1_0000_0000_0000_0000
    {
      hide Advance, Usable;
      tries := 0;
      ghost var last := nextID;
      AdvanceSteps(last, 0);
      while true
        invariant nextID == Advance(last, tries)
        invariant forall j | 0 < j <= tries :: !Usable(sessions.Keys, Advance(last, j))
        invariant tries <= |sessions| + 1
        decreases |sessions| + 1 - tries
      {
        assert |sessions.Keys| == |sessions|;
        AdvanceSteps(last, tries);
        nextID := (nextID + 1) % 0x1_0000_0000_0000_0000;
        tries := tries + 1;
        id := nextID;
        UsableIs(sessions.Keys, id);
        if id != 0 && id !in sessions {
          ByNumber(last, sessions.Keys, tries);
          return;
        }
        ghost var seen := UnusableRun(last, sessions.Keys, tries);
      }
    }

    /** The session idle longest. */
    method OldestSession() returns (k: U64)
      requires sessions != map[]
      ensures k in sessions && forall j | j in sessions :: sessions[k].lastActive <= sessions[j].lastActive
    {
      var keys := sessions.Keys;
      k :| k in keys;
      while keys != {}
        invariant keys <= sessions.Keys && k in sessions
        invariant forall j | j in sessions && j !in keys :: sessions[k].lastActive <= sessions[j].lastActive
        decreases |keys|
      {
        var j :| j in keys;
        if sessions[j].lastActive < sessions[k].lastActive {
          k := j;
        }
        keys := keys - {j};
      }
    }

    method OldestHandshake() returns (n: seq<Byte>)
      requires handshakes != map[]
      ensures n in handshakes && forall m | m in handshakes :: handshakes[n].created <= handshakes[m].created
    {
      var keys := handshakes.Keys;
      n :| n in keys;
      while keys != {}
        invariant keys <= handshakes.Keys && n in handshakes
        invariant forall m | m in handshakes && m !in keys :: handshakes[n].created <= handshakes[m].created
        decreases |keys|
      {
        var m :| m in keys;
        if handshakes[m].created < handshakes[n].created {
          n := m;
        }
        keys := keys - {m};
      }
    }

    /** Closes one stored session, leaving it in the table. */
    method CloseStored(k: U64)
      requires Valid() && k in sessions
      modifies sessions[k].secure
      ensures k in model.table && model.table[k] < |model.store|
      ensures Mirrors(made, model.store[model.table[k] := model.store[model.table[k]].(closed := true)])
    {
      hide ClientSession.Represents, AllSeparate, CacheMatches, TableMatches;
      Found(k);
      ghost var ref := model.table[k];
      OwnParts(made, ref);
      sessions[k].Shut(model.store[ref]);
      OthersKept(ref);
    }

    /** Closes one stored session and deletes its key. */
    method Remove(k: U64)
      requires Valid() && k in sessions
      modifies Parts()
      ensures Valid() && made == old(made) && handshakes == old(handshakes) && nextID == old(nextID)
      ensures k in old(model).table && old(model).table[k] < |old(model).store| && model == Evict(old(model), k)
      ensures sessions == old(sessions) - {k}
    {
      hide Valid, ClientSession.Represents, Mirrors, PartsOf, AllSeparate, CacheMatches, TableMatches, Evict;
      Unfold();
      Found(k);
      OwnParts(made, model.table[k]);
      Fold();
      CloseStored(k);
      TableWithout(sessions, made, model.table, k);
      EvictFrame(model, k);
      sessions := sessions - {k};
      model := Evict(model, k);
      Fold();
    }

    method EvictOldestSession() returns (ghost victim: U64)
      requires Valid() && TableInvariant(model) && sessions != map[]
      modifies Parts()
      ensures Valid() && made == old(made) && handshakes == old(handshakes) && nextID == old(nextID)
      ensures IsOldestSession(old(model), victim) && model == Evict(old(model), victim)
      ensures victim in old(sessions) && sessions == old(sessions) - {victim}
      ensures forall k | k in old(sessions) :: old(sessions[victim].lastActive) <= old(sessions[k].lastActive)
    {
      hide Valid, ClientSession.Represents, Mirrors, PartsOf, AllSeparate, IsOldestSession, TableInvariant, Evict;
      Unfold();
      var k := OldestSession();
      Fold();
      victim := k;
      OldestInModel(k);
      Remove(sessions[k].sessionID);
    }

    lemma OldestInModel(k: U64)
      requires Valid() && TableInvariant(model) && k in sessions
      requires forall j | j in sessions :: sessions[k].lastActive <= sessions[j].lastActive
      ensures IsOldestSession(model, k) && sessions[k].sessionID == k
    {
      forall j | j in sessions
        ensures j in model.table && model.table[j] < |model.store|
        ensures sessions[j].Represents(model.store[model.table[j]]) && KeyNames(model, j)
      {
      }
    }

    predicate SessionPresent(target: ClientSession)
      reads this, target, target.secure
    {
      target.sessionID in sessions && sessions[target.sessionID] == target && !target.secure.closed
    }

    lemma PresentInModel(ref: nat)
      requires Valid() && ref < |made|
      ensures SessionPresent(made[ref]) <==> Present(model, ref)
    {
      assert made[ref].Represents(model.store[ref]);
      var id := model.store[ref].sid;
      if id in sessions && model.table[id] != ref {
        var other := model.table[id];
        assert Separate(made[if other < ref then other else ref], made[if other < ref then ref else other]);
      }
    }

    method DropEntry(n: seq<Byte>)
      requires Valid()
      modifies `handshakes, `model
      ensures Valid() && model == old(model).(cache := old(model).cache - {n}) && handshakes == old(handshakes) - {n}
    {
      hide Valid, ClientSession.Represents, Mirrors, PartsOf, AllSeparate, CacheMatches, TableMatches;
      Unfold();
      CacheWithout(handshakes, made, model.cache, n);
      handshakes := handshakes - {n};
      model := model.(cache := model.cache - {n});
      Fold();
    }

    /** The nonce was cached in the last two minutes, with another public key or for a session that
        still lives. */
    predicate Knows(q: Request, now: int)
      reads this, set e | e in handshakes.Values :: e.client,
            set e | e in handshakes.Values :: e.client.secure
    {
      && q.clientNonce in handshakes
      && var e := handshakes[q.clientNonce];
         && now - e.created <= 120_000_000_000
         && (e.clientPublic != q.clientPublic || SessionPresent(e.client))
    }

    lemma NotKnown(q: Request, now: int)
      requires q.clientNonce !in handshakes
      ensures !Knows(q, now)
    {
    }

    /** Answers a repeated request from the cache, or forgets its stale entry. */
    method Recall(q: Request, now: int) returns (done: bool, reply: Option<seq<Byte>>)
      requires Valid()
      modifies `handshakes, `model
      ensures Valid()
      ensures done <==> Resends(old(model), q, now) || Confuses(old(model), q, now)
      ensures done ==> model == old(model) && handshakes == old(handshakes)
      ensures !done ==> model == old(model).(cache := old(model).cache - {q.clientNonce})
      ensures reply.Some? <==> Resends(old(model), q, now)
      ensures reply.Some? ==> reply.value == old(handshakes)[q.clientNonce].response
      ensures done <==> old(Knows(q, now))
      ensures done ==> (reply.Some? <==> old(handshakes)[q.clientNonce].clientPublic == q.clientPublic)
    {
      hide ClientSession.Represents, Mirrors, AllSeparate, PartsOf, TableMatches, Present;
      done, reply := false, None;
      var n := q.clientNonce;
      if n in handshakes {
        var entry := handshakes[n];
        PresentInModel(model.cache[n].ref);
        if now - entry.created > CACHE_TTL {
        } else if entry.clientPublic != q.clientPublic {
          done := true;
          return;
        } else if SessionPresent(entry.client) {
          done, reply := true, Some(entry.response);
          return;
        }
      }
      DropEntry(n);
    }

    /** Closes the session idle longest when the table is full. */
    method MakeRoom(ghost sess: ClientSession, ghost c: Client) returns (ghost evict: U64)
      requires Valid() && TableInvariant(model) && sess.Represents(c)
      requires Outside(sess)
      modifies Parts()
      ensures Valid() && made == old(made) && handshakes == old(handshakes) && nextID == old(nextID)
      ensures sess.Represents(c) && Outside(sess) && unchanged(sess, sess.secure, sess.secure.recv)
      ensures |old(model).table| >= MAX_SESSIONS ==> IsOldestSession(old(model), evict)
      ensures model == if |old(model).table| >= MAX_SESSIONS then Evict(old(model), evict) else old(model)
    {
      hide ClientSession.Represents, Mirrors, PartsOf, AllSeparate, CacheMatches, TableMatches, IsOldestSession,
           TableInvariant, Evict;
      evict := 0;
      SameSizes(sessions, handshakes, made, model);
      if |sessions| >= MAX_SESSIONS {
        evict := EvictOldestSession();
      }
    }

    /** Drops the oldest cache entry when the cache is full. */
    method TrimCache() returns (drop: seq<Byte>)
      requires CacheMatches(handshakes, made, model.cache) && |handshakes| == |model.cache|
      modifies `handshakes
      ensures |model.cache| >= CACHE_LIMIT ==> IsOldestEntry(model.cache, drop)
      ensures CacheMatches(handshakes, made, if |model.cache| >= CACHE_LIMIT then model.cache - {drop} else model.cache)
    {
      drop := [];
      if |handshakes| >= CACHE_LIMIT {
        drop := OldestHandshake();
        OldestEntryInModel(drop);
        CacheWithout(handshakes, made, model.cache, drop);
        handshakes := handshakes - {drop};
      }
    }

    /** The session is stored under its ID, and its response kept for its nonce. */
    ghost predicate Remembers(sess: ClientSession, q: Request, response: seq<Byte>, now: int)
      reads this
    {
      && sess.sessionID in sessions && sessions[sess.sessionID] == sess
      && q.clientNonce in handshakes
      && var e := handshakes[q.clientNonce];
         e.response == response && e.client == sess && e.clientPublic == q.clientPublic && e.created == now
    }

    /** A session that shares nothing with those made so far. */
    ghost predicate Outside(sess: ClientSession)
      reads this
    {
      && sess.secure.aead == aead
      && (forall i | 0 <= i < |made| :: Separate(made[i], sess))
      && {sess as object, sess.secure as object, sess.secure.recv as object} !! Parts()
      && this !in {sess as object, sess.secure as object, sess.secure.recv as object}
    }

    /** Stores a new session and remembers its response, trimming the cache. */
    method Keep(q: Request, sess: ClientSession, response: seq<Byte>, src: Addr, now: int, ghost key: seq<Byte>)
      returns (drop: seq<Byte>)
      requires Valid() && Outside(sess) && sess.Represents(NewClient(sess.sessionID, q, key, src, now))
      modifies `sessions, `handshakes, `made, `model
      ensures Valid() && made == old(made) + [sess]
      ensures Remembers(sess, q, response, now)
      ensures |old(model).cache| >= CACHE_LIMIT ==> IsOldestEntry(old(model).cache, drop)
      ensures forall evict :: model == Install(old(model), q, key, src, now, Choice(sess.sessionID, evict, drop))
    {
      hide Valid, Mapped, Distinct, ClientSession.Represents, Mirrors, PartsOf, AllSeparate, CacheMatches,
           TableMatches, IsOldestEntry, Install, NewClient, Outside;
      ghost var c, room := NewClient(sess.sessionID, q, key, src, now), model;
      UnfoldMaps();
      MirrorsWith(made, room.store, sess, c);
      StillDistinct(sess);
      SameSizes(sessions, handshakes, made, room);
      TableWith(sessions, made, room.table, sess.sessionID, sess);
      sessions := sessions[sess.sessionID := sess];
      drop := TrimCache();
      ghost var cache := if |room.cache| >= CACHE_LIMIT then room.cache - {drop} else room.cache;
      ghost var entry := CacheEntry(response, sess, q.clientPublic, now);
      CacheWith(handshakes, made, cache, q.clientNonce, entry);
      handshakes := handshakes[q.clientNonce := CacheEntry(response, sess, q.clientPublic, now)];
      InstallEffect(room, q, key, src, now, Choice(sess.sessionID, 0, drop));
      InstallIgnoresEvict(room, q, key, src, now, sess.sessionID, drop);
      made := made + [sess];
      model := Install(room, q, key, src, now, Choice(sess.sessionID, 0, drop));
      FoldMaps();
    }

    lemma InstallIgnoresEvict(s: State, q: Request, key: seq<Byte>, src: Addr, now: int, id: U64, drop: seq<Byte>)
      ensures forall evict ::
                Install(s, q, key, src, now, Choice(id, evict, drop))
                == Install(s, q, key, src, now, Choice(id, 0, drop))
    {
    }

    /** The whole admission: room in the table first. */
    method Admit(q: Request, sess: ClientSession, response: seq<Byte>, src: Addr, now: int, ghost key: seq<Byte>)
      returns (ghost evict: U64, drop: seq<Byte>)
      requires Valid() && TableInvariant(model) && Outside(sess)
      requires sess.Represents(NewClient(sess.sessionID, q, key, src, now))
      modifies Parts()
      ensures Valid() && made == old(made) + [sess] && nextID == old(nextID)
      ensures Remembers(sess, q, response, now) && unchanged(sess, sess.secure, sess.secure.recv)
      ensures |old(model).table| >= MAX_SESSIONS ==> IsOldestSession(old(model), evict)
      ensures |old(model).cache| >= CACHE_LIMIT ==> IsOldestEntry(old(model).cache, drop)
      ensures var room := if |old(model).table| >= MAX_SESSIONS then Evict(old(model), evict) else old(model);
              model == Install(room, q, key, src, now, Choice(sess.sessionID, evict, drop))
    {
      hide Valid, ClientSession.Represents, Mirrors, PartsOf, AllSeparate, CacheMatches, TableMatches,
           IsOldestSession, IsOldestEntry, TableInvariant, Evict, Install, NewClient, Outside;
      evict := MakeRoom(sess, NewClient(sess.sessionID, q, key, src, now));
      EvictKeepsCache(old(model), evict);
      drop := Keep(q, sess, response, src, now, key);
    }

    lemma StillDistinct(c: ClientSession)
      requires Distinct() && Outside(c)
      ensures forall i | 0 <= i < |made + [c]| :: (made + [c])[i].secure.aead == aead
      ensures AllSeparate(made + [c]) && this !in PartsOf(made + [c])
    {
    }

    lemma EvictKeepsCache(s: State, k: U64)
      ensures Evict(s, k).cache == s.cache
    {
    }

    lemma EvictFrame(s: State, k: U64)
      requires k in s.table && s.table[k] < |s.store|
      ensures var s' := Evict(s, k);
              && s'.cache == s.cache && s'.nextID == s.nextID && s'.stopped == s.stopped && |s'.store| == |s.store|
              && s'.table == s.table - {k} && s'.store == s.store[s.table[k] := s.store[s.table[k]].(closed := true)]
    {
    }

    lemma InstallEffect(s: State, q: Request, key: seq<Byte>, src: Addr, now: int, choice: Choice)
      ensures var s' := Install(s, q, key, src, now, choice);
              && s'.store == s.store + [NewClient(choice.id, q, key, src, now)]
              && s'.table == s.table[choice.id := |s.store|]
              && s'.cache == (if |s.cache| >= CACHE_LIMIT then s.cache - {choice.drop} else s.cache)
                             [q.clientNonce := Entry(|s.store|, q.clientPublic, now)]
              && s'.nextID == s.nextID && s'.stopped == s.stopped
    {
    }

    lemma OldestEntryInModel(n: seq<Byte>)
      requires CacheMatches(handshakes, made, model.cache) && n in handshakes
      requires forall m | m in handshakes :: handshakes[n].created <= handshakes[m].created
      ensures IsOldestEntry(model.cache, n)
    {
    }

    method NewSession(q: Request, keys: SessionKeys, src: Addr, via: Option<Addr>, now: int)
      returns (sess: ClientSession)
      requires Valid()
      ensures Valid() && fresh(sess) && fresh(sess.secure) && fresh(sess.secure.recv) && Outside(sess)
      ensures sess.sessionID == keys.id && sess.Represents(NewClient(keys.id, q, keys.clientKey, src, now))
      ensures sess.Starts(keys, src, via, now)
    {
      var secure := new Session(keys.id, aead, keys.clientKey, keys.serverKey);
      sess := new ClientSession(secure, src, via, now);
    }

    lemma SmallTable()
      requires Mapped() && TableInvariant(model)
      ensures |sessions| <= MAX_SESSIONS && sessions.Keys == model.table.Keys
    {
      SameSizes(sessions, handshakes, made, model);
    }

    /** Draws the ID of a new session. */
    method DrawID() returns (id: U64)
      requires Valid() && TableInvariant(model)
      modifies `nextID, `model
      ensures Valid() && TableInvariant(model) && model == old(model).(nextID := id)
      ensures IsNextID(old(model).nextID, old(model).table.Keys, id) && id !in sessions && id != 0
    {
      hide Valid, Mirrors, PartsOf, AllSeparate, CacheMatches, TableMatches, TableInvariant;
      Unfold();
      SmallTable();
      var tries;
      id, tries := NextSessionID();
      SameTable(model, model.(nextID := id));
      model := model.(nextID := id);
      Fold();
    }

    /** Makes the session of an authenticated request the cache does not know. */
    method Establish(f: Primitives, authKey: seq<Byte>, q: Request, src: Addr, via: Option<Addr>, now: Int64,
                     metadata: seq<Byte>, privateKey: seq<Byte>, serverNonce: seq<Byte>)
      returns (reply: Option<seq<Byte>>, ghost key: Option<seq<Byte>>, ghost choice: Choice, ghost keys: SessionKeys,
               ghost sess: ClientSession?)
      requires Laws(f) && |serverNonce| == NONCE_SIZE && |q.clientNonce| == NONCE_SIZE && |q.clientPublic| == PUB_SIZE
      requires |authKey| == KEY_SIZE && q.seqNo != 0
      requires Valid() && TableInvariant(model)
      modifies Parts()
      ensures Valid()
      ensures IsNextID(old(model).nextID, old(model).table.Keys, choice.id)
      ensures Drawn(old(model).(nextID := choice.id), choice)
      ensures model == Established(old(model).(nextID := choice.id), q, key, src, now, choice)
      ensures reply.Some? <==> key.Some?
      ensures key.None? ==> made == old(made)
      ensures key.Some? <==> |metadata| <= MAX_METADATA && f.ecdh(privateKey, q.clientPublic).Some?
      ensures key.Some? ==>
                && Responds(f, authKey, q, choice.id, metadata, privateKey, serverNonce, keys, reply.value)
                && key.value == keys.clientKey && keys.id == choice.id != 0
                && sess != null && made == old(made) + [sess] && sess.Starts(keys, src, via, now)
                && sess.secure.aead == aead && fresh(sess) && fresh(sess.secure) && fresh(sess.secure.recv)
                && Remembers(sess, q, reply.value, now)
    {
      hide Valid, Laws, ClientSession.Represents, Mirrors, AllSeparate, Mapped, Distinct, IsOldestSession,
           IsOldestEntry, TableInvariant, IsNextID, Answers, Derive, Responds, Drawn, Remembers, ClientSession.Starts,
           Established, FromBigEndian, ToUnsigned, Encode, PartsOf;
      reply, key, choice, keys, sess := None, None, Choice(0, 0, []), SessionKeys(0, [], []), null;
      var id := DrawID();
      ghost var drawn := model;
      choice := SomeChoice(drawn, id);
      NothingEstablished(drawn, q, src, now, choice);
      Unfold();
      var response := NewHandshakeResponse(f, authKey, q, id, metadata, privateKey, serverNonce);
      Fold();
      if response.Err? {
        return;
      }
      var packet, derived := response.value.0, response.value.1;
      DerivedID(f, authKey, f.ecdh(privateKey, q.clientPublic).value, q.clientNonce, serverNonce, id);
      var marshaled := Marshal(packet);
      var wire := marshaled[..];
      RespondsWith(f, authKey, q, id, metadata, privateKey, serverNonce, derived, packet);
      Fold();
      var session;
      session, choice := Store(q, derived, wire, src, via, now);
      reply, key, keys, sess := Some(wire), Some(derived.clientKey), derived, session;
    }

    /** Makes the session's object, room for it, and both map entries. */
    method Store(q: Request, keys: SessionKeys, response: seq<Byte>, src: Addr, via: Option<Addr>, now: int)
      returns (sess: ClientSession, ghost choice: Choice)
      requires Valid() && TableInvariant(model)
      modifies Parts()
      ensures Valid() && made == old(made) + [sess]
      ensures sess.Starts(keys, src, via, now) && sess.secure.aead == aead
      ensures fresh(sess) && fresh(sess.secure) && fresh(sess.secure.recv) && Remembers(sess, q, response, now)
      ensures choice.id == keys.id && Drawn(old(model), choice)
      ensures model == Established(old(model), q, Some(keys.clientKey), src, now, choice)
    {
      hide Valid, ClientSession.Represents, Mirrors, AllSeparate, Mapped, Distinct, IsOldestSession,
           IsOldestEntry, TableInvariant, Evict, Install, Drawn, Established, Remembers;
      sess := NewSession(q, keys, src, via, now);
      ghost var evict;
      var drop;
      evict, drop := Admit(q, sess, response, src, now, keys.clientKey);
      choice := Choice(keys.id, evict, drop);
      AdmitEstablishes(old(model), q, keys.clientKey, src, now, choice);
    }

    lemma ForgottenFirst(q: Request)
      requires Mapped() && TableInvariant(model)
      ensures TableInvariant(model.(cache := model.cache - {q.clientNonce}))
    {
      SameTable(model, model.(cache := model.cache - {q.clientNonce}));
    }

    /** Answers an authenticated request: from the cache, not at all, or by a new session. */
    method Answer(f: Primitives, authKey: seq<Byte>, q: Request, src: Addr, via: Option<Addr>, now: Int64,
                  metadata: seq<Byte>, privateKey: seq<Byte>, serverNonce: seq<Byte>)
      returns (reply: Option<seq<Byte>>, ghost key: Option<seq<Byte>>, ghost choice: Choice, ghost keys: SessionKeys,
               ghost sess: ClientSession?)
      requires Laws(f) && |serverNonce| == NONCE_SIZE && |q.clientNonce| == NONCE_SIZE && |q.clientPublic| == PUB_SIZE
      requires |authKey| == KEY_SIZE && q.seqNo != 0
      requires Valid() && TableInvariant(model)
      modifies Parts()
      ensures Valid()
      ensures Allows(old(model), q, now, choice)
      ensures model == Shake(old(model), q, key, src, now, choice)
      ensures old(Knows(q, now)) ==>
                && model == old(model) && made == old(made) && handshakes == old(handshakes)
                && reply == if handshakes[q.clientNonce].clientPublic == q.clientPublic
                            then Some(handshakes[q.clientNonce].response) else None
      ensures !old(Knows(q, now)) ==>
                && (reply.Some? <==> key.Some?) && (key.None? ==> made == old(made))
                && (key.Some? <==> |metadata| <= 65345 && f.ecdh(privateKey, q.clientPublic).Some?)
                && (key.Some? ==>
                      && Responds(f, authKey, q, choice.id, metadata, privateKey, serverNonce, keys, reply.value)
                      && key.value == keys.clientKey && keys.id == choice.id != 0
                      && sess != null && made == old(made) + [sess] && sess.Starts(keys, src, via, now)
                      && sess.secure.aead == aead && fresh(sess) && fresh(sess.secure) && fresh(sess.secure.recv)
                      && Remembers(sess, q, reply.value, now))
    {
      hide Valid, Laws, ClientSession.Represents, Mirrors, AllSeparate, Mapped, Distinct, IsOldestSession,
           IsOldestEntry, TableInvariant, Evict, Install, Resends, Confuses, IsNextID, Answers, Responds, Picks,
           Drawn, Established, Shake, WithinSkew, ClientSession.Starts, Remembers;
      reply, key, choice, keys, sess := None, None, Choice(0, 0, []), SessionKeys(0, [], []), null;
      Unfold();
      ghost var s := model;
      ForgottenFirst(q);
      ResendsInCache(q, now);
      var done;
      done, reply := Recall(q, now);
      if done {
        ShakeAnswers(s, q, key, src, now, choice);
      } else {
        reply, key, choice, keys, sess := Establish(f, authKey, q, src, via, now, metadata, privateKey, serverNonce);
        EstablishedIsShaken(s, q, key, src, now, choice);
      }
    }

    /** Answers one handshake request: a refused one changes nothing; an authenticated one is
        a Shake of the model, and its reply is the cached response or the new one. */
    method HandleHandshake(f: Primitives, authKey: seq<Byte>, p: Packet, src: Addr, via: Option<Addr>, now: Int64,
                           metadata: seq<Byte>, privateKey: seq<Byte>, serverNonce: seq<Byte>)
      returns (reply: Option<seq<Byte>>, ghost req: Option<Request>, ghost key: Option<seq<Byte>>, ghost choice: Choice,
               ghost keys: SessionKeys, ghost sess: ClientSession?)
      requires Laws(f) && |serverNonce| == NONCE_SIZE && Valid() && TableInvariant(model)
      modifies Parts()
      ensures forall q: Request :: req == Some(q) <==> Authenticates(f, authKey, p, now, q)
      ensures req.None? ==> model == old(model) && made == old(made) && handshakes == old(handshakes) && reply == None
      ensures Valid()
      ensures req.Some? ==> Allows(old(model), req.value, now, choice)
      ensures req.Some? ==> model == Shake(old(model), req.value, key, src, now, choice)
      ensures req.Some? && old(Knows(req.value, now)) ==>
                && model == old(model) && made == old(made) && handshakes == old(handshakes)
                && reply == if handshakes[req.value.clientNonce].clientPublic == req.value.clientPublic
                            then Some(handshakes[req.value.clientNonce].response) else None
      ensures req.Some? && !old(Knows(req.value, now)) ==>
                && (reply.Some? <==> key.Some?) && (key.None? ==> made == old(made))
                && (key.Some? <==> |metadata| <= 65345 && f.ecdh(privateKey, req.value.clientPublic).Some?)
                && (key.Some? ==>
                      && Responds(f, authKey, req.value, choice.id, metadata, privateKey, serverNonce, keys,
                                  reply.value)
                      && key.value == keys.clientKey && keys.id == choice.id != 0
                      && sess != null && made == old(made) + [sess] && sess.Starts(keys, src, via, now)
                      && sess.secure.aead == aead && fresh(sess) && fresh(sess.secure) && fresh(sess.secure.recv)
                      && Remembers(sess, req.value, reply.value, now))
    {
      hide Valid, Laws, Mirrors, AllSeparate, Mapped, Distinct, Allows, Shake, Responds, WithinSkew,
           ClientSession.Represents, ClientSession.Starts, Remembers, TableInvariant;
      reply, req, key, choice, keys, sess := None, None, None, Choice(0, 0, []), SessionKeys(0, [], []), null;
      Unfold();
      var verified := VerifyHandshakeRequest(f, authKey, p, now);
      Fold();
      if verified.Ok? {
        req := Some(verified.value);
        reply, key, choice, keys, sess :=
          Answer(f, authKey, verified.value, src, via, now, metadata, privateKey, serverNonce);
      }
    }

    lemma ResendsInCache(q: Request, now: int)
      requires Mapped()
      ensures Resends(model, q, now) ==> q.clientNonce in handshakes && !Confuses(model, q, now)
    {
    }

    /** One cleanup tick over the sessions, in whatever order the map gives them. */
    method CleanupSessions(now: int)
      requires Valid() && TableInvariant(model)
      modifies Parts()
      ensures Valid() && made == old(made) && handshakes == old(handshakes)
      ensures model == Reap(old(model), now)
    {
      hide Valid, ClientSession.Represents, Mirrors, PartsOf, AllSeparate, CacheMatches, TableMatches, Evict,
           Reap, Reaped, TableInvariant;
      ghost var s := model;
      Unfold();
      SmallTable();
      Fold();
      var keys := sessions.Keys;
      ReapedNone(s, now);
      assert s.table.Keys - keys == {};
      while keys != {}
        invariant Valid() && made == old(made) && handshakes == old(handshakes)
        invariant keys <= s.table.Keys && model == Reaped(s, now, s.table.Keys - keys)
        decreases |keys|
      {
        var k :| k in keys;
        ReapedStep(s, now, s.table.Keys - keys, k);
        IdleInModel(k, now);
        if now - sessions[k].lastActive > IDLE_LIMIT {
          Remove(k);
        }
        assert s.table.Keys - (keys - {k}) == s.table.Keys - keys + {k};
        keys := keys - {k};
      }
      assert s.table.Keys - {} == s.table.Keys;
      ReapedAll(s, now);
    }

    lemma IdleInModel(k: U64, now: int)
      requires Valid() && k in model.table
      ensures k in sessions && (Idle(model, k, now) <==> now - sessions[k].lastActive > IDLE_LIMIT)
    {
      Found(k);
      assert sessions[k].Represents(model.store[model.table[k]]);
    }

    /** Whether one cache entry survives the tick. */
    method Stale(n: seq<Byte>, now: int) returns (stale: bool)
      requires Valid() && n in handshakes
      ensures n in model.cache
      ensures stale <==> now - model.cache[n].created > CACHE_TTL || !Present(model, model.cache[n].ref)
    {
      hide ClientSession.Represents, AllSeparate, TableMatches, CacheMatches, Present;
      var entry := handshakes[n];
      EntryInModel(n);
      PresentInModel(model.cache[n].ref);
      stale := now - entry.created > CACHE_TTL || !SessionPresent(entry.client);
    }

    /** The cache half of the tick. */
    method CleanupHandshakes(now: int)
      requires Valid()
      modifies `handshakes, `model
      ensures Valid() && model == Sweep(old(model), now)
    {
      hide Valid, ClientSession.Represents, Mirrors, PartsOf, AllSeparate, CacheMatches, TableMatches, Present,
           Sweep, Swept;
      ghost var s := model;
      Unfold();
      SameEntries();
      Fold();
      var keys := handshakes.Keys;
      SweptNone(s, now);
      assert s.cache.Keys - keys == {};
      while keys != {}
        invariant Valid() && keys <= s.cache.Keys
        invariant model == Swept(s, now, s.cache.Keys - keys)
        decreases |keys|
      {
        var n :| n in keys;
        SweptStep(s, now, s.cache.Keys - keys, n);
        Unfold();
        SameEntries();
        var stale := Stale(n, now);
        Fold();
        if stale {
          DropEntry(n);
        }
        assert s.cache.Keys - (keys - {n}) == s.cache.Keys - keys + {n};
        keys := keys - {n};
      }
      assert s.cache.Keys - {} == s.cache.Keys;
      SweptAll(s, now);
    }

    lemma SameEntries()
      requires CacheMatches(handshakes, made, model.cache)
      ensures handshakes.Keys == model.cache.Keys
    {
    }

    lemma EntryInModel(n: seq<Byte>)
      requires CacheMatches(handshakes, made, model.cache) && n in handshakes
      ensures n in model.cache && model.cache[n].ref < |made|
      ensures handshakes[n].client == made[model.cache[n].ref] && handshakes[n].created == model.cache[n].created
    {
    }

    /** Stop closes every stored session; a second call does nothing. */
    method StopServer()
      requires Valid() && TableInvariant(model)
      modifies Parts()
      ensures Valid() && made == old(made) && model == Stop(old(model))
    {
      hide Valid, ClientSession.Represents, Mirrors, PartsOf, AllSeparate, CacheMatches, TableMatches, Stopped,
           Closing, TableInvariant;
      Unfold();
      SmallTable();
      if stopping {
        Fold();
        return;
      }
      ghost var s := model;
      stopping := true;
      model := model.(stopped := true);
      Fold();
      var keys := sessions.Keys;
      ClosingNone(s);
      assert s.table.Keys - keys == {};
      while keys != {}
        invariant Valid() && made == old(made) && sessions == old(sessions)
        invariant keys <= s.table.Keys && model == Closing(s, s.table.Keys - keys)
        decreases |keys|
      {
        var k :| k in keys;
        Unfold();
        Fold();
        ClosingStep(s, s.table.Keys - keys, k);
        OwnParts(made, model.table[k]);
        Found(k);
        CloseStored(k);
        model := model.(store := model.store[model.table[k] := model.store[model.table[k]].(closed := true)]);
        Fold();
        assert s.table.Keys - (keys - {k}) == s.table.Keys - keys + {k};
        keys := keys - {k};
      }
      assert s.table.Keys - {} == s.table.Keys;
      ClosingAll(s);
    }

    method ClearHandshakes()
      requires Valid()
      modifies `handshakes, `model
      ensures Valid() && handshakes == map[] && model == old(model).(cache := map[])
    {
      hide Valid, Mapped, Distinct, ClientSession.Represents, Mirrors, PartsOf, AllSeparate, CacheMatches,
           TableMatches;
      var keys := handshakes.Keys;
      SameCacheKeys();
      while keys != {}
        invariant Valid() && keys == handshakes.Keys == model.cache.Keys && model == old(model).(cache := model.cache)
        decreases |keys|
      {
        var n :| n in keys;
        DropEntry(n);
        keys := keys - {n};
      }
      NoKeys(handshakes);
      NoKeys(model.cache);
    }

    lemma SameCacheKeys()
      requires Valid()
      ensures handshakes.Keys == model.cache.Keys
    {
    }

    /** The end of Stop, once every task has returned: forgets the cached responses and wipes
        the authentication key in place. */
    method FinishStop(authKey: array<Byte>)
      requires Valid() && stopping && authKey as object !in Parts()
      modifies `handshakes, `model, authKey
      ensures Valid() && handshakes == map[] && model == old(model).(cache := map[])
      ensures forall i | 0 <= i < authKey.Length :: authKey[i] == 0
    {
      hide ClientSession.Represents, Mirrors, AllSeparate, CacheMatches, TableMatches;
      ClearHandshakes();
      Wipe(authKey);
    }
  }

  lemma NoKeys<K, V>(m: map<K, V>)
    requires m.Keys == {}
    ensures m == map[]
  {
    assert forall k | k in m :: k in m.Keys;
  }

  method Wipe(key: array<Byte>)
    modifies key
    ensures forall i | 0 <= i < key.Length :: key[i] == 0
  {
    for i := 0 to key.Length
      invariant forall j | 0 <= j < i :: key[j] == 0
    {
      key[i] := 0;
    }
  }

  /** A stopped server opens nothing more for any session it had. */
  lemma StoppedIsSilent(s: State, log: SealLog, wire: seq<Byte>, src: Addr, now: int, target: Option<Addr>)
    requires TableInvariant(s) && !s.stopped
    ensures Opened(Stop(s), log, wire, src, now, target) == None
    ensures Receive(Stop(s), log, wire, src, now, target) == Stop(s)
  {
    if Unmarshal(wire).Ok? && Unmarshal(wire).value.sessionID in s.table {
      assert KeyNames(s, Unmarshal(wire).value.sessionID);
    }
  }
}
