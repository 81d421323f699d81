/** The server's session table as a state machine (pkg/server/server.go:837-1105,
    1383-1455, 1461-1513). Each handler or lock section is one atomic step with one clock
    reading; pointers to client sessions are indexes into the store of all sessions made. */
module ServerModel {
  import opened Bytes
  import opened Protocol
  import opened Replay
  import opened SecureSession
  import opened Handshake

  const SECOND: int := 1_000_000_000
  const MAX_SESSIONS: nat := 2048
  const CACHE_LIMIT: nat := 2 * MAX_SESSIONS
  const CACHE_TTL: int := 120 * SECOND
  const IDLE_LIMIT: int := 60 * SECOND
  const PUNCH_WINDOW: int := 30 * SECOND

  datatype Addr = Addr(host: seq<Byte>, port: U16)

  /** A datagram that passed authentication and the replay window; `target` is the endpoint its
      payload reads as, which matters to a PunchInit. */
  datatype Event = Event(ref: nat, wire: seq<Byte>, packet: Packet, src: Addr, time: int, target: Option<Addr>)

  datatype Client = Client(
    sid: U64,
    key: seq<Byte>,           // client-to-server traffic key
    nonce: seq<Byte>,         // of the handshake request that made the session
    requested: int,           // that request's timestamp
    source: Addr,             // where it came from
    created: int,
    accepted: set<nat>,
    closed: bool,
    ret: Addr,
    allowed: set<Addr>,
    lastActive: int,
    punchTarget: Option<Addr>,
    punchExpiry: int)

  datatype Entry = Entry(ref: nat, clientPublic: seq<Byte>, created: int)

  datatype State = State(
    store: seq<Client>,       // every session ever made
    table: map<U64, nat>,
    cache: map<seq<Byte>, Entry>,
    nextID: U64,
    stopped: bool,
    clock: int,
    history: seq<Event>)

  // ----- Packets ------------------------------------------------------------------------

  predicate Present(s: State, ref: nat)
  {
    && ref < |s.store|
    && s.store[ref].sid in s.table && s.table[s.store[ref].sid] == ref
    && !s.store[ref].closed
  }

  predicate PunchOpen(c: Client, now: int)
  {
    c.punchTarget.Some? && now < c.punchExpiry
  }

  predicate Authorized(c: Client, src: Addr)
  {
    src in c.allowed || src == c.ret
  }

  /** The event a datagram causes, if any. */
  ghost function Opened(s: State, log: SealLog, wire: seq<Byte>, src: Addr, now: int,
                        target: Option<Addr>): Option<Event>
  {
    match Unmarshal(wire)
    case Err(_) => None
    case Ok(p) =>
      if p.cmd == CMD_HANDSHAKE_REQ || p.sessionID !in s.table || s.table[p.sessionID] >= |s.store| then None
      else
        var ref := s.table[p.sessionID];
        OpenedBy(s.store[ref], ref, log, wire, p, src, now, target)
  }

  /** The same once the session is found. */
  ghost function OpenedBy(c: Client, ref: nat, log: SealLog, wire: seq<Byte>, p: Packet, src: Addr, now: int,
                          target: Option<Addr>): Option<Event>
  {
    if !Authorized(c, src) && p.cmd != CMD_PING && !PunchOpen(c, now) then None
    else if c.closed then None
    else match Authentic(log, c.key, c.sid, wire)
      case None => None
      case Some(q) => if Fresh(c.accepted, q.seqNo) then Some(Event(ref, wire, q, src, now, target)) else None
  }

  predicate IsGameData(p: Packet)
  {
    p.cmd == CMD_DATA && IsL4D2Packet(p.payload)
  }

  /** A PunchInit that names an endpoint. */
  predicate IsPunchInit(e: Event)
  {
    e.packet.cmd == CMD_PUNCH_INIT && e.target.Some? && e.target.value.port != 0
  }

  /** What an event does to its session. */
  function Applied(c: Client, e: Event): Client
  {
    var a := c.(accepted := c.accepted + {e.packet.seqNo as nat}, allowed := c.allowed + {e.src}, lastActive := e.time);
    if IsPunchInit(e) then
      a.(punchTarget := e.target, punchExpiry := e.time + PUNCH_WINDOW)
    else if IsGameData(e.packet) then
      a.(ret := e.src, punchExpiry := if c.punchTarget == Some(e.src) then e.time else c.punchExpiry)
    else a
  }

  ghost function Receive(s: State, log: SealLog, wire: seq<Byte>, src: Addr, now: int, target: Option<Addr>): State
  {
    match Opened(s, log, wire, src, now, target)
    case None => s
    case Some(e) => s.(store := s.store[e.ref := Applied(s.store[e.ref], e)], history := s.history + [e])
  }

  // ----- Handshakes -----------------------------------------------------------------------

  /** What the map iterations and the ID search settle: the ID found, the session evicted
      and the cache entry dropped, the last two only at their limits. */
  datatype Choice = Choice(id: U64, evict: U64, drop: seq<Byte>)

  predicate Usable(taken: set<U64>, id: U64)
  {
    id != 0 && id !in taken
  }

  function Advance(id: U64, k: nat): U64
  {
    (id + k) % 0x1_0000_0000_0000_0000
  }

  /** id is the first usable one after `last`, counting with wrap-around. */
  ghost predicate IsNextID(last: U64, taken: set<U64>, id: U64)
  {
    && Usable(taken, id)
    && exists k: nat :: 0 < k <= |taken| + 2 && id == Advance(last, k)
                        && forall j | 0 < j < k :: !Usable(taken, Advance(last, j))
  }

  ghost predicate IsOldestSession(s: State, k: U64)
  {
    && k in s.table && s.table[k] < |s.store|
    && forall j | j in s.table && s.table[j] < |s.store| ::
         s.store[s.table[k]].lastActive <= s.store[s.table[j]].lastActive
  }

  ghost predicate IsOldestEntry(cache: map<seq<Byte>, Entry>, n: seq<Byte>)
  {
    n in cache && forall m | m in cache :: cache[n].created <= cache[m].created
  }

  predicate Resends(s: State, req: Request, now: int)
  {
    && req.clientNonce in s.cache
    && var entry := s.cache[req.clientNonce];
       && now - entry.created <= CACHE_TTL && entry.clientPublic == req.clientPublic && Present(s, entry.ref)
  }

  predicate Confuses(s: State, req: Request, now: int)
  {
    && req.clientNonce in s.cache
    && now - s.cache[req.clientNonce].created <= CACHE_TTL
    && s.cache[req.clientNonce].clientPublic != req.clientPublic
  }

  function Evict(s: State, k: U64): State
  {
    if k in s.table && s.table[k] < |s.store| then
      s.(store := s.store[s.table[k] := s.store[s.table[k]].(closed := true)], table := s.table - {k})
    else s
  }

  function NewClient(id: U64, req: Request, key: seq<Byte>, src: Addr, now: int): Client
  {
    Client(id, key, req.clientNonce, req.timestamp, src, now, {}, false, src, {src}, now, None, 0)
  }

  /** Makes the session and remembers its response. */
  function Install(s: State, req: Request, key: seq<Byte>, src: Addr, now: int, choice: Choice): State
  {
    var c := NewClient(choice.id, req, key, src, now);
    var cache := if |s.cache| >= CACHE_LIMIT then s.cache - {choice.drop} else s.cache;
    s.(store := s.store + [c],
       table := s.table[choice.id := |s.store|],
       cache := cache[req.clientNonce := Entry(|s.store|, req.clientPublic, now)])
  }

  /** The state a new session is installed in: the nonce forgotten, room made. */
  function Roomy(s: State, req: Request, choice: Choice): State
  {
    var forgotten := Forget(s, req, choice);
    if |s.table| >= MAX_SESSIONS then Evict(forgotten, choice.evict) else forgotten
  }

  function Forget(s: State, req: Request, choice: Choice): State
  {
    s.(cache := s.cache - {req.clientNonce}, nextID := choice.id)
  }

  /** An authenticated request; `key` is what the response derives, None if making it fails. */
  function Shake(s: State, req: Request, key: Option<seq<Byte>>, src: Addr, now: int, choice: Choice): State
  {
    if Resends(s, req, now) || Confuses(s, req, now) then s
    else if key.None? then Forget(s, req, choice)
    else Install(Roomy(s, req, choice), req, key.value, src, now, choice)
  }

  /** The choices the code can make; a request answered from the cache makes none. */
  ghost predicate Allows(s: State, req: Request, now: int, choice: Choice)
  {
    Resends(s, req, now) || Confuses(s, req, now) || Picks(s, req, choice)
  }

  ghost predicate Picks(s: State, req: Request, choice: Choice)
  {
    && IsNextID(s.nextID, s.table.Keys, choice.id)
    && (|s.table| >= MAX_SESSIONS ==> IsOldestSession(s, choice.evict))
    && (|s.cache - {req.clientNonce}| >= CACHE_LIMIT ==> IsOldestEntry(s.cache - {req.clientNonce}, choice.drop))
  }

  // ----- Housekeeping -----------------------------------------------------------------------

  predicate Idle(s: State, k: U64, now: int)
  {
    k in s.table && s.table[k] < |s.store| && now - s.store[s.table[k]].lastActive > IDLE_LIMIT
  }

  /** The session half of one cleanup tick. */
  function Reap(s: State, now: int): State
  {
    s.(store := seq(|s.store|, i requires 0 <= i < |s.store| =>
         var c := s.store[i];
         if c.sid in s.table && s.table[c.sid] == i && Idle(s, c.sid, now) then c.(closed := true) else c),
       table := map k | k in s.table && !Idle(s, k, now) :: s.table[k])
  }

  /** The handshake-cache half. */
  function Sweep(s: State, now: int): State
  {
    s.(cache := map n | n in s.cache && now - s.cache[n].created <= CACHE_TTL && Present(s, s.cache[n].ref) ::
                  s.cache[n])
  }

  function Stop(s: State): State
  {
    if s.stopped then s else Stopped(s)
  }

  function Stopped(s: State): State
  {
    s.(stopped := true,
       store := seq(|s.store|, i requires 0 <= i < |s.store| =>
         var c := s.store[i];
         if c.sid in s.table && s.table[c.sid] == i then c.(closed := true) else c))
  }

  // ----- Runs ---------------------------------------------------------------------------------

  datatype Action =
    | Datagram(log: SealLog, wire: seq<Byte>, src: Addr, target: Option<Addr>)
    | HandshakeRequest(req: Request, key: Option<seq<Byte>>, from: Addr, choice: Choice)
    | ReapTick
    | SweepTick
    | StopServer

  datatype Timed = Timed(now: Int64, action: Action)

  const INITIAL_CLOCK: int := 0

  function Initial(seed: U64): State
  {
    State([], map[], map[], seed, false, INITIAL_CLOCK, [])
  }

  /** The clock never goes back, and an authenticated request is one the skew test passed. */
  ghost predicate Enabled(s: State, t: Timed)
  {
    && s.clock <= t.now < 0x8000_0000_0000_0000 - MAX_SKEW
    && (t.action.HandshakeRequest? ==>
          WithinSkew(t.now, t.action.req.timestamp) && Allows(s, t.action.req, t.now, t.action.choice))
  }

  ghost function Act(s: State, t: Timed): State
  {
    match t.action
    case Datagram(log, wire, src, target) => Receive(s, log, wire, src, t.now, target)
    case HandshakeRequest(req, key, from, choice) => Shake(s, req, key, from, t.now, choice)
    case ReapTick => Reap(s, t.now)
    case SweepTick => Sweep(s, t.now)
    case StopServer => Stop(s)
  }

  ghost function Next(s: State, t: Timed): State
  {
    Act(s, t).(clock := t.now)
  }

  ghost function After(seed: U64, run: seq<Timed>): State
  {
    if run == [] then Initial(seed) else Next(After(seed, run[..|run| - 1]), run[|run| - 1])
  }

  ghost predicate IsRun(seed: U64, run: seq<Timed>)
  {
    run == [] ||
    (IsRun(seed, run[..|run| - 1]) && Enabled(After(seed, run[..|run| - 1]), run[|run| - 1]))
  }
}
