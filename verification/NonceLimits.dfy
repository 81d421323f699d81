/** What OncePerNonce assumes is needed (pkg/server/server.go:995-1072, 1414-1455): whole runs,
    with the server's own ticks, that end with two live sessions for one client nonce. */
module NonceLimits {
  import opened Bytes
  import opened Protocol
  import opened SecureSession
  import opened Handshake
  import opened ServerModel
  import opened ServerTable
  import opened OncePerNonce

  const TICK: int := 10 * SECOND

  /** The server started less than a tick before the run; its ticker fires first at `first`, and
      every tick due before the run's last step is in the run, both halves of it. */
  ghost predicate TicksOnTime(run: seq<Timed>, first: int)
  {
    && run != [] && first - TICK <= run[0].now < first
    && forall k: nat | first + k * TICK < run[|run| - 1].now :: TickAt(run, first + k * TICK)
  }

  ghost predicate TickAt(run: seq<Timed>, at: int)
  {
    exists a :: 0 <= a < |run| - 1 && run[a].now == run[a + 1].now == at
                && run[a].action == ReapTick && run[a + 1].action == SweepTick
  }

  /** Sessions i and j are live for one nonce, i made at `created` for a request stamped
      `timestamp`. */
  ghost predicate TwoLive(s: State, i: nat, j: nat, created: int, timestamp: int)
  {
    && i < j < |s.store| && Present(s, i) && Present(s, j) && s.store[i].nonce == s.store[j].nonce
    && s.store[i].created == created && s.store[i].requested == timestamp
  }

  // ----- Steps ------------------------------------------------------------------------------

  lemma Snoc(seed: U64, run: seq<Timed>, t: Timed)
    requires IsRun(seed, run) && Honest(seed, run)
    requires Enabled(After(seed, run), t) && HonestStep(After(seed, run), t)
    ensures IsRun(seed, run + [t]) && Honest(seed, run + [t])
    ensures After(seed, run + [t]) == Next(After(seed, run), t)
  {
    assert (run + [t])[..|run + [t]| - 1] == run;
  }

  function UpTo(n: nat): set<nat>
  {
    if n == 0 then {} else UpTo(n - 1) + {n - 1}
  }

  lemma {:induction false} UpToSize(n: nat)
    ensures |UpTo(n)| == n && forall i: nat :: i in UpTo(n) <==> i < n
  {
    if n > 0 {
      UpToSize(n - 1);
    }
  }

  /** A server that never made more than 4096 sessions made no more in any window. */
  lemma FewAreBounded(s: State)
    requires |s.store| <= CACHE_LIMIT
    ensures RateBounded(s)
  {
    forall t ensures |Made(s, t)| <= CACHE_LIMIT {
      UpToSize(|s.store|);
      SubsetSize(Made(s, t), UpTo(|s.store|));
    }
  }

  // ----- A request stamped ahead --------------------------------------------------------------

  /** A client, its request, when it arrives first and when the ticker next fires. */
  datatype Scenario = Scenario(
    created: int, timestamp: Int64, first: int, nonce: seq<Byte>, public: seq<Byte>, key: seq<Byte>, other: seq<Byte>,
    src: Addr)

  /** The request is stamped ahead, by no more than the skew allows. */
  ghost predicate Ahead(x: Scenario)
  {
    && 0 <= x.created < x.timestamp <= x.created + CACHE_TTL
    && x.created + CACHE_TTL + 1 < 0x8000_0000_0000_0000 - MAX_SKEW
    && x.first - TICK <= x.created < x.first
  }

  function RequestOf(x: Scenario): Request
  {
    Request(x.nonce, x.public, 1, x.timestamp)
  }

  /** The request arrives. */
  function Arrival(now: Int64, q: Request, key: seq<Byte>, src: Addr, choice: Choice): Timed
  {
    Timed(now, HandshakeRequest(q, Some(key), src, choice))
  }

  /** The ciphertext of an empty payload. */
  const BOX: seq<Byte> := [0, 0, 0, 0, 0, 0, 0, 0, 0, 0, 0, 0, 0, 0, 0, 0]

  /** Keep-alive Ping number n. */
  function PingPacket(id: U64, n: U32): Packet
  {
    Packet(VERSION2, CMD_PING, id, n, 0, [])
  }

  /** The Ping as sealed by the client that holds the key. */
  function Ping(now: Int64, key: seq<Byte>, id: U64, n: U32, src: Addr): Timed
  {
    var p := PingPacket(id, n).(payload := BOX);
    Timed(now, Datagram(map[Claim(key, p) := []], Encode(p), src, None))
  }

  /** A fresh Ping from an allowed source is opened, and all it does is keep the session alive. */
  lemma PingLands(s: State, now: Int64, ref: nat, n: U32, src: Addr)
    requires ref < |s.store| && s.store[ref].sid in s.table && s.table[s.store[ref].sid] == ref
    requires !s.store[ref].closed && src in s.store[ref].allowed && n != 0
    requires forall x | x in s.store[ref].accepted :: x < n
    ensures var c, s' := s.store[ref], Act(s, Ping(now, s.store[ref].key, s.store[ref].sid, n, src));
            && s'.store == s.store[ref := c.(accepted := c.accepted + {n as nat}, allowed := c.allowed + {src},
                                             lastActive := now)]
            && s'.table == s.table && s'.cache == s.cache && s'.nextID == s.nextID && s'.stopped == s.stopped
  {
    var c := s.store[ref];
    var p := PingPacket(c.sid, n);
    var sealed := p.(payload := BOX);
    var log := map[Claim(c.key, sealed) := []];
    SealedOpens(log, c.key, c.sid, p, BOX);
    CodecIsExact(sealed, Encode(sealed));
    assert Opened(s, log, Encode(sealed), src, now, None) == Some(Event(ref, Encode(sealed), p, src, now, None));
  }

  /** One live session of the scenario's client, last heard from at `last` with n Pings. */
  ghost predicate Waiting(s: State, x: Scenario, n: nat, last: int)
  {
    && s.clock == last && |s.store| == 1 && s.nextID == 1
    && s.table == map[1 := 0] && s.cache == map[x.nonce := Entry(0, x.public, x.created)]
    && var c := s.store[0];
       && c.sid == 1 && c.key == x.key && c.nonce == x.nonce && c.requested == x.timestamp && c.created == x.created
       && !c.closed && c.lastActive == last && x.src in c.allowed && forall a | a in c.accepted :: a <= n
  }

  function TickTime(x: Scenario, k: nat): int
  {
    x.first + k * TICK
  }

  /** The arrival, then n ticks, a Ping before each. */
  ghost function Rounds(x: Scenario, n: nat): seq<Timed>
    requires Ahead(x) && n <= 12
    ensures |Rounds(x, n)| == 1 + 3 * n
  {
    if n == 0 then [Arrival(x.created, RequestOf(x), x.key, x.src, Choice(1, 0, []))]
    else
      Rounds(x, n - 1)
      + [Ping(TickTime(x, n - 1), x.key, 1, n, x.src)]
      + [Timed(TickTime(x, n - 1), ReapTick)]
      + [Timed(TickTime(x, n - 1), SweepTick)]
  }

  lemma FirstArrives(x: Scenario, s: State)
    requires Ahead(x) && s == Initial(0)
    ensures var t := Arrival(x.created, RequestOf(x), x.key, x.src, Choice(1, 0, []));
            Enabled(s, t) && HonestStep(s, t) && Waiting(Next(s, t), x, 0, x.created)
  {
    hide WithinSkew, Receive, Reap, Sweep, Stop;
    var t := Arrival(x.created, RequestOf(x), x.key, x.src, Choice(1, 0, []));
    assert 1 == Advance(0, 1) && IsNextID(0, s.table.Keys, 1);
    SkewTest(x.created, x.timestamp);
    assert s.cache - {x.nonce} == map[];
    FewAreBounded(Next(s, t));
  }

  lemma PingKeeps(x: Scenario, s: State, n: nat, last: int, now: Int64)
    requires Waiting(s, x, n, last) && last <= now < 0x8000_0000_0000_0000 - MAX_SKEW && n < 12
    ensures var t := Ping(now, x.key, 1, n + 1, x.src);
            Enabled(s, t) && HonestStep(s, t) && Waiting(Next(s, t), x, n + 1, now)
  {
    PingLands(s, now, 0, n + 1, x.src);
    FewAreBounded(Next(s, Ping(now, x.key, 1, n + 1, x.src)));
  }

  lemma TickKeeps(x: Scenario, s: State, n: nat, now: Int64)
    requires Waiting(s, x, n, now) && now - x.created <= CACHE_TTL && 0 <= now < 0x8000_0000_0000_0000 - MAX_SKEW
    ensures Enabled(s, Timed(now, ReapTick)) && HonestStep(s, Timed(now, ReapTick))
    ensures Waiting(Next(s, Timed(now, ReapTick)), x, n, now)
    ensures Enabled(s, Timed(now, SweepTick)) && HonestStep(s, Timed(now, SweepTick))
    ensures Waiting(Next(s, Timed(now, SweepTick)), x, n, now)
  {
    assert Present(s, 0) && !Idle(s, 1, now);
    assert Reap(s, now).table == s.table;
    assert Sweep(s, now).cache == s.cache;
    FewAreBounded(Next(s, Timed(now, ReapTick)));
    FewAreBounded(Next(s, Timed(now, SweepTick)));
  }

  lemma {:induction false} RoundsRun(x: Scenario, n: nat)
    requires Ahead(x) && n <= 12
    ensures IsRun(0, Rounds(x, n)) && Honest(0, Rounds(x, n))
    ensures Waiting(After(0, Rounds(x, n)), x, n, if n == 0 then x.created else TickTime(x, n - 1))
  {
    hide IsRun, Honest, After, Waiting, Ping, Rounds;
    if n == 0 {
      StartRun(x);
    } else {
      RoundsRun(x, n - 1);
      OneMoreRound(x, n - 1);
      OneRound(x, Rounds(x, n - 1), n - 1, if n == 1 then x.created else TickTime(x, n - 2));
    }
  }

  lemma OneMoreRound(x: Scenario, n: nat)
    requires Ahead(x) && n < 12
    ensures var now := TickTime(x, n);
            Rounds(x, n + 1)
            == Rounds(x, n) + [Ping(now, x.key, 1, n + 1, x.src)] + [Timed(now, ReapTick)] + [Timed(now, SweepTick)]
  {
    hide Ping, Ahead;
  }

  lemma StartRun(x: Scenario)
    requires Ahead(x)
    ensures IsRun(0, Rounds(x, 0)) && Honest(0, Rounds(x, 0)) && Waiting(After(0, Rounds(x, 0)), x, 0, x.created)
  {
    hide Enabled, HonestStep, Next, Waiting;
    FirstArrives(x, Initial(0));
    Snoc(0, [], Arrival(x.created, RequestOf(x), x.key, x.src, Choice(1, 0, [])));
    assert [] + Rounds(x, 0) == Rounds(x, 0);
  }

  lemma OneRound(x: Scenario, r: seq<Timed>, n: nat, last: int)
    requires Ahead(x) && n < 12 && last <= TickTime(x, n)
    requires IsRun(0, r) && Honest(0, r) && Waiting(After(0, r), x, n, last)
    ensures var now := TickTime(x, n);
            var r' := r + [Ping(now, x.key, 1, n + 1, x.src)] + [Timed(now, ReapTick)] + [Timed(now, SweepTick)];
            IsRun(0, r') && Honest(0, r') && Waiting(After(0, r'), x, n + 1, now)
  {
    hide Enabled, HonestStep, Next, Waiting, IsRun, Honest, After, Ping;
    var now: Int64 := TickTime(x, n);
    var ping := Ping(now, x.key, 1, n + 1, x.src);
    PingKeeps(x, After(0, r), n, last, now);
    Snoc(0, r, ping);
    TickKeeps(x, After(0, r + [ping]), n + 1, now);
    Snoc(0, r + [ping], Timed(now, ReapTick));
    TickKeeps(x, After(0, r + [ping] + [Timed(now, ReapTick)]), n + 1, now);
    Snoc(0, r + [ping] + [Timed(now, ReapTick)], Timed(now, SweepTick));
  }

  /** Every tick of the rounds is there. */
  lemma {:induction false} RoundsTick(x: Scenario, n: nat, k: nat)
    requires Ahead(x) && k < n <= 12
    ensures var r := Rounds(x, n);
            r[3 * k + 2] == Timed(TickTime(x, k), ReapTick) && r[3 * k + 3] == Timed(TickTime(x, k), SweepTick)
    ensures Rounds(x, n)[0].now == x.created
  {
    hide Ping;
    if n > 1 && k < n - 1 {
      RoundsTick(x, n - 1, k);
    } else if n > 1 {
      RoundsTick(x, n - 1, 0);
    }
  }

  /** The same request again, one nanosecond after its cache entry expired. */
  function Again(x: Scenario): Timed
    requires -0x8000_0000_0000_0000 <= x.created + CACHE_TTL + 1 < 0x8000_0000_0000_0000
  {
    Arrival(x.created + CACHE_TTL + 1, RequestOf(x), x.other, x.src, Choice(2, 0, []))
  }

  /** Its entry has expired, so it counts as new. */
  lemma AgainIsNew(x: Scenario, s: State, n: nat, last: int)
    requires Ahead(x) && Waiting(s, x, n, last) && last <= x.created + CACHE_TTL
    ensures Enabled(s, Again(x))
    ensures !Resends(s, RequestOf(x), Again(x).now) && !Confuses(s, RequestOf(x), Again(x).now)
  {
    hide WithinSkew;
    assert 2 == Advance(1, 1) && s.table.Keys == {1} && IsNextID(1, s.table.Keys, 2);
    SkewTest(x.created + CACHE_TTL + 1, x.timestamp);
    assert s.cache - {x.nonce} == map[] && |s.table| == 1;
  }

  lemma AgainMakes(x: Scenario, s: State, n: nat, last: int)
    requires Ahead(x) && Waiting(s, x, n, last)
    requires !Resends(s, RequestOf(x), Again(x).now) && !Confuses(s, RequestOf(x), Again(x).now)
    ensures var s' := Next(s, Again(x));
            && s'.store == s.store + [NewClient(2, RequestOf(x), x.other, x.src, Again(x).now)]
            && s'.table == map[1 := 0, 2 := 1]
  {
    hide Receive, Reap, Sweep, Stop, Resends, Confuses;
    assert |s.table| == 1;
  }

  lemma AgainDoubles(x: Scenario, s: State, n: nat, last: int)
    requires Ahead(x) && Waiting(s, x, n, last) && last <= x.created + CACHE_TTL
    ensures Enabled(s, Again(x)) && HonestStep(s, Again(x))
    ensures TwoLive(Next(s, Again(x)), 0, 1, x.created, x.timestamp)
  {
    hide Next, Enabled, Resends, Confuses;
    AgainIsNew(x, s, n, last);
    AgainMakes(x, s, n, last);
    FewAreBounded(Next(s, Again(x)));
  }

  /** A request stamped ahead by anything from a nanosecond to two minutes, whenever it arrives
      and however the ticker falls, can get two live sessions: while the client keeps the first
      alive with authentic Pings, its cache entry expires, and a second copy, still fresh, makes
      another. Nothing in the run is amiss but that stamp, and every tick due is in it. */
  lemma AheadDoubles(x: Scenario) returns (run: seq<Timed>)
    requires Ahead(x)
    ensures IsRun(0, run) && Honest(0, run) && TicksOnTime(run, x.first)
    ensures TwoLive(After(0, run), 0, 1, x.created, x.timestamp)
  {
    hide Enabled, HonestStep, Next, Waiting, TwoLive, IsRun, Honest, TicksOnTime;
    var rounds := Rounds(x, 12);
    RoundsRun(x, 12);
    AgainDoubles(x, After(0, rounds), 12, TickTime(x, 11));
    Snoc(0, rounds, Again(x));
    run := rounds + [Again(x)];
    TicksAreIn(x);
  }

  lemma TicksAreIn(x: Scenario)
    requires Ahead(x)
    ensures TicksOnTime(Rounds(x, 12) + [Again(x)], x.first)
  {
    var run := Rounds(x, 12) + [Again(x)];
    RoundsTick(x, 12, 0);
    forall k: nat | x.first + k * TICK < run[|run| - 1].now ensures TickAt(run, x.first + k * TICK) {
      RoundsTick(x, 12, k);
      assert run[3 * k + 2] == Timed(TickTime(x, k), ReapTick) && run[3 * k + 3] == Timed(TickTime(x, k), SweepTick);
    }
  }

  /** Some honest run with all its ticks ends with two live sessions for one nonce, the earlier
      made at `created` for a request stamped `timestamp`. */
  ghost predicate CanDouble(created: int, timestamp: int)
  {
    exists seed, run, first, i, j :: Doubles(seed, run, first, i, j, created, timestamp)
  }

  ghost predicate Doubles(seed: U64, run: seq<Timed>, first: int, i: nat, j: nat, created: int, timestamp: int)
  {
    && IsRun(seed, run) && Honest(seed, run) && TicksOnTime(run, first)
    && TwoLive(After(seed, run), i, j, created, timestamp)
  }

  /** For every time a request is accepted at and every stamp it is accepted with: two live
      sessions for its nonce are possible if and only if it was stamped ahead of the clock. */
  lemma TwoLiveExactlyWhenAhead(created: Int64, timestamp: Int64)
    requires 0 <= created && created + CACHE_TTL + 1 < 0x8000_0000_0000_0000 - MAX_SKEW
    requires WithinSkew(created, timestamp)
    ensures CanDouble(created, timestamp) <==> timestamp > created
  {
    hide Doubles, WithinSkew;
    if timestamp > created {
      SkewTest(created, timestamp);
      var x := Scenario(created, timestamp, created + 1, [], [], [], [], Addr([], 0));
      var run := AheadDoubles(x);
      ItDoubles(0, run, x.first, 0, 1, created, timestamp);
    }
    if CanDouble(created, timestamp) {
      var seed, run, first, i, j :| Doubles(seed, run, first, i, j, created, timestamp);
      DoublesAhead(seed, run, first, i, j, created, timestamp);
    }
  }

  lemma ItDoubles(seed: U64, run: seq<Timed>, first: int, i: nat, j: nat, created: int, timestamp: int)
    requires IsRun(seed, run) && Honest(seed, run) && TicksOnTime(run, first)
    requires TwoLive(After(seed, run), i, j, created, timestamp)
    ensures Doubles(seed, run, first, i, j, created, timestamp)
  {
  }

  lemma DoublesAhead(seed: U64, run: seq<Timed>, first: int, i: nat, j: nat, created: int, timestamp: int)
    requires Doubles(seed, run, first, i, j, created, timestamp)
    ensures timestamp > created
  {
    TwoLiveMeansAhead(seed, run, i, j);
  }

  // ----- Too many new sessions ----------------------------------------------------------------

  const MILLI: int := 1_000_000

  /** Request m is stamped, and arrives, m milliseconds after the start. */
  function Stamp(m: nat): int
  {
    m * MILLI
  }

  function Nonce(m: nat): seq<Byte>
  {
    BigEndian(m, NONCE_SIZE)
  }

  function Numbered(m: nat): Request
    requires m <= CACHE_LIMIT
  {
    Request(Nonce(m), [], 1, Stamp(m))
  }

  lemma {:induction false} LimitGrows(w: nat)
    requires w >= 2
    ensures Limit(w) >= Limit(2)
  {
    if w > 2 {
      LimitGrows(w - 1);
    }
  }

  lemma NoncesDiffer(i: nat, j: nat)
    requires i < 0x1_0000 && j < 0x1_0000 && Nonce(i) == Nonce(j)
    ensures i == j
  {
    Limits();
    LimitGrows(NONCE_SIZE);
    DecodeEncoded(i, NONCE_SIZE);
    DecodeEncoded(j, NONCE_SIZE);
  }

  /** Session i of the crowd, as it was made. */
  predicate Member(c: Client, i: nat)
  {
    && c.sid == i + 1 && c.nonce == Nonce(i) && c.created == c.requested == Stamp(i)
    && (i > 0 ==> c.lastActive == Stamp(i))
  }

  /** Requests 0 to m have arrived; session 0 sent p Pings, the last just now. */
  ghost predicate Crowd(s: State, m: nat, p: nat, src: Addr)
  {
    && |s.store| == m + 1 && s.clock == Stamp(p) && s.nextID == m + 1
    && (forall i | 0 <= i <= m :: Member(s.store[i], i))
    && Present(s, 0) && s.store[0].key == [] && src in s.store[0].allowed && s.store[0].lastActive == Stamp(p)
    && forall x | x in s.store[0].accepted :: x <= p
  }

  /** All of them are in the cache. */
  ghost predicate AllCached(s: State, m: nat)
  {
    && |s.cache| == m + 1 && Nonce(0) in s.cache && s.cache[Nonce(0)].created == 0
    && forall n | n in s.cache :: 0 <= s.cache[n].created && exists i :: 0 <= i <= m && n == Nonce(i)
  }

  lemma NotYetCached(s: State, m: nat)
    requires AllCached(s, m) && m < CACHE_LIMIT
    ensures Nonce(m + 1) !in s.cache
  {
    if Nonce(m + 1) in s.cache {
      var i: nat :| i <= m && Nonce(m + 1) == Nonce(i);
      NoncesDiffer(m + 1, i);
    }
  }

  lemma Heard(c: Client, n: nat, src: Addr, now: int)
    requires Member(c, 0)
    ensures Member(c.(accepted := c.accepted + {n}, allowed := c.allowed + {src}, lastActive := now), 0)
    ensures c.sid == 1
  {
  }

  lemma CrowdPing(s: State, m: nat, src: Addr)
    requires Crowd(s, m, m, src) && m <= CACHE_LIMIT
    ensures var t := Ping(Stamp(m + 1), [], 1, m + 1, src);
            && Enabled(s, t) && OneRequest(s, t) && Crowd(Next(s, t), m, m + 1, src)
            && Next(s, t).cache == s.cache && |Next(s, t).store| == |s.store|
  {
    hide Act, Member, Ping;
    assert Member(s.store[0], 0);
    Heard(s.store[0], m + 1, src, Stamp(m + 1));
    PingLands(s, Stamp(m + 1), 0, m + 1, src);
    PingRuns(s, Stamp(m + 1), m + 1, src);
  }

  lemma PingRuns(s: State, now: Int64, n: U32, src: Addr)
    requires s.clock <= now < 0x8000_0000_0000_0000 - MAX_SKEW
    ensures var t := Ping(now, [], 1, n, src); t.now == now && Enabled(s, t) && OneRequest(s, t)
  {
  }

  /** A session of the table is the member its key names. */
  lemma KeyedMember(s: State, m: nat, p: nat, src: Addr, k: U64)
    requires TableInvariant(s) && Crowd(s, m, p, src) && k in s.table
    ensures 1 <= k <= m + 1 && s.table[k] == k - 1
    ensures k > 1 ==> s.store[s.table[k]].lastActive == Stamp(k - 1)
  {
    assert KeyNames(s, k);
    assert Member(s.store[s.table[k]], s.table[k]);
  }

  lemma AnotherKey(keys: set<U64>)
    requires |keys| >= 2
    ensures exists k :: k in keys && k != 1
  {
    if forall k | k in keys :: k == 1 {
      SubsetSize(keys, {1});
    }
  }

  /** In a full table somebody else has been idle longer than session 0. */
  lemma SomeoneIdler(s: State, m: nat, src: Addr) returns (k: U64)
    requires TableInvariant(s) && Crowd(s, m, m + 1, src) && |s.table| >= MAX_SESSIONS
    ensures IsOldestSession(s, k) && k != 1
  {
    hide TableInvariant, Member;
    assert |s.table.Keys| == |s.table|;
    AnotherKey(s.table.Keys);
    var other :| other in s.table && other != 1;
    KeyedMember(s, m, m + 1, src, other);
    forall j | j in s.table ensures s.table[j] < |s.store| {
      KeyedMember(s, m, m + 1, src, j);
    }
    k := LeastActive(s);
    FirstIsStored(s, m, m + 1, src);
    OldestIsIdler(s, k, other);
  }

  lemma FirstIsStored(s: State, m: nat, p: nat, src: Addr)
    requires Crowd(s, m, p, src)
    ensures s.store[0].sid == 1 && 1 in s.table && s.table[1] == 0
  {
    assert Member(s.store[0], 0);
  }

  lemma OldestIsIdler(s: State, k: U64, other: U64)
    requires IsOldestSession(s, k) && other in s.table && s.table[other] < |s.store|
    requires 1 in s.table && s.table[1] < |s.store|
    requires s.store[s.table[other]].lastActive < s.store[s.table[1]].lastActive
    ensures k != 1
  {
  }

  lemma LeastActive(s: State) returns (k: U64)
    requires s.table != map[] && forall j | j in s.table :: s.table[j] < |s.store|
    ensures IsOldestSession(s, k)
  {
    k := Least(s.table.Keys, j => if j in s.table && s.table[j] < |s.store| then s.store[s.table[j]].lastActive else 0);
  }

  function Newcomer(m: nat, src: Addr, choice: Choice): Timed
    requires m <= CACHE_LIMIT
  {
    Arrival(Stamp(m), Numbered(m), [], src, choice)
  }

  lemma NobodyHasNonce(s: State, m: nat, p: nat, src: Addr)
    requires Crowd(s, m, p, src) && m < CACHE_LIMIT
    ensures forall i | 0 <= i < |s.store| :: s.store[i].nonce != Nonce(m + 1)
  {
    forall i | 0 <= i < |s.store| ensures s.store[i].nonce != Nonce(m + 1) {
      assert Member(s.store[i], i);
      if Nonce(i) == Nonce(m + 1) {
        NoncesDiffer(i, m + 1);
      }
    }
  }

  lemma NextIDIsFree(s: State, m: nat, p: nat, src: Addr)
    requires TableInvariant(s) && Crowd(s, m, p, src) && m <= CACHE_LIMIT
    ensures IsNextID(s.nextID, s.table.Keys, m + 2)
  {
    hide TableInvariant, IsNextID, Member;
    if m + 2 in s.table {
      KeyedMember(s, m, p, src, m + 2);
    }
    FreeIsNext(s.nextID, s.table.Keys, m + 2);
  }

  lemma FreeIsNext(last: U64, taken: set<U64>, id: U64)
    requires id == last + 1 && id !in taken
    ensures IsNextID(last, taken, id)
  {
    assert Advance(last, 1) == id;
  }

  /** What the newcomer's choices may be: its ID, somebody idler than session 0, and the entry of
      session 0 itself, the oldest. */
  lemma NewcomerPicks(s: State, m: nat, src: Addr) returns (choice: Choice)
    requires TableInvariant(s) && Crowd(s, m, m + 1, src) && AllCached(s, m) && m < CACHE_LIMIT
    ensures choice.id == m + 2 && choice.drop == Nonce(0)
    ensures Picks(s, Numbered(m + 1), choice)
    ensures |s.table| >= MAX_SESSIONS ==> choice.evict != 1
  {
    hide TableInvariant, Crowd, IsNextID, IsOldestSession, Nonce;
    NextIDIsFree(s, m, m + 1, src);
    var evict := 0;
    if |s.table| >= MAX_SESSIONS {
      evict := SomeoneIdler(s, m, src);
    }
    choice := Choice(m + 2, evict, Nonce(0));
    NotYetCached(s, m);
    assert s.cache - {Nonce(m + 1)} == s.cache;
  }

  lemma NewcomerIsNew(s: State, m: nat, src: Addr, choice: Choice)
    requires Crowd(s, m, m + 1, src) && AllCached(s, m) && m < CACHE_LIMIT && Picks(s, Numbered(m + 1), choice)
    ensures var t := Newcomer(m + 1, src, choice);
            && Enabled(s, t) && OneRequest(s, t)
            && !Resends(s, Numbered(m + 1), t.now) && !Confuses(s, Numbered(m + 1), t.now)
  {
    hide Picks, Nonce, Member;
    NobodyHasNonce(s, m, m + 1, src);
    NotYetCached(s, m);
    SkewTest(Stamp(m + 1), Stamp(m + 1));
  }

  /** Making room never closes session 0. */
  lemma FirstStays(s: State, q: Request, choice: Choice)
    requires Present(s, 0) && 1 in s.table && s.table[1] == 0 && s.store[0].sid == 1
    requires forall j | j in s.table && j != 1 :: s.table[j] != 0
    requires |s.table| >= MAX_SESSIONS ==> choice.evict != 1
    ensures Present(Roomy(s, q, choice), 0) && Roomy(s, q, choice).store[0] == s.store[0]
  {
  }

  lemma MemberClosed(c: Client, i: nat)
    ensures Member(c, i) ==> Member(c.(closed := true), i)
  {
  }

  lemma NewMember(m: nat, src: Addr, now: int)
    requires now == Stamp(m + 1) && m < CACHE_LIMIT
    ensures Member(NewClient(m + 2, Numbered(m + 1), [], src, now), m + 1)
  {
  }

  /** The store after a newcomer. */
  lemma NewcomerStored(s: State, m: nat, src: Addr, choice: Choice)
    requires TableInvariant(s) && Crowd(s, m, m + 1, src) && m < CACHE_LIMIT
    requires choice.id == m + 2 && (|s.table| >= MAX_SESSIONS ==> choice.evict != 1)
    requires !Resends(s, Numbered(m + 1), Stamp(m + 1)) && !Confuses(s, Numbered(m + 1), Stamp(m + 1))
    ensures Crowd(Next(s, Newcomer(m + 1, src, choice)), m + 1, m + 1, src)
  {
    hide Roomy, Nonce, Resends, Confuses, TableInvariant, Member;
    var q := Numbered(m + 1);
    var room, s' := Roomy(s, q, choice), Next(s, Newcomer(m + 1, src, choice));
    RoomyFrame(s, q, choice);
    FirstIsStored(s, m, m + 1, src);
    OnlyFirstIsZero(s, m, src);
    FirstStays(s, q, choice);
    RoomyDrew(s, q, choice);
    NextIDUnused(s, m, src);
    NewMember(m, src, Stamp(m + 1));
    forall i | 0 <= i <= m + 1 ensures Member(s'.store[i], i) {
      if i <= m {
        assert Member(s.store[i], i);
        MemberClosed(s.store[i], i);
      }
    }
  }

  lemma RoomyDrew(s: State, q: Request, choice: Choice)
    ensures Roomy(s, q, choice).nextID == choice.id
  {
  }

  lemma OnlyFirstIsZero(s: State, m: nat, src: Addr)
    requires TableInvariant(s) && Crowd(s, m, m + 1, src)
    ensures forall j | j in s.table && j != 1 :: s.table[j] != 0
  {
    forall j | j in s.table && j != 1 ensures s.table[j] != 0 {
      KeyedMember(s, m, m + 1, src, j);
    }
  }

  lemma NextIDUnused(s: State, m: nat, src: Addr)
    requires TableInvariant(s) && Crowd(s, m, m + 1, src)
    ensures m + 2 !in s.table
  {
    if m + 2 in s.table {
      KeyedMember(s, m, m + 1, src, m + 2);
    }
  }

  /** The cache after a newcomer: one more entry, until the first has to go. */
  lemma NewcomerCached(s: State, m: nat, src: Addr, choice: Choice)
    requires AllCached(s, m) && m < CACHE_LIMIT && choice.drop == Nonce(0)
    requires !Resends(s, Numbered(m + 1), Stamp(m + 1)) && !Confuses(s, Numbered(m + 1), Stamp(m + 1))
    ensures var s' := Next(s, Newcomer(m + 1, src, choice));
            if m + 1 < CACHE_LIMIT then AllCached(s', m + 1) else Nonce(0) !in s'.cache
  {
    hide Nonce, Resends, Confuses, Roomy;
    var q := Numbered(m + 1);
    var s' := Next(s, Newcomer(m + 1, src, choice));
    RoomyFrame(s, q, choice);
    NotYetCached(s, m);
    assert s.cache - {Nonce(m + 1)} == s.cache;
    var e := Entry(|s.store|, [], Stamp(m + 1));
    if m + 1 < CACHE_LIMIT {
      OneMoreEntry(s.cache, Nonce(m + 1), e);
      forall n | n in s'.cache ensures 0 <= s'.cache[n].created && exists i :: 0 <= i <= m + 1 && n == Nonce(i) {
        if n == Nonce(m + 1) {
          assert n == Nonce(m + 1);
        } else {
          var i :| 0 <= i <= m && n == Nonce(i);
        }
      }
    }
  }

  lemma OneMoreEntry(cache: map<seq<Byte>, Entry>, n: seq<Byte>, e: Entry)
    requires n !in cache
    ensures |cache[n := e]| == |cache| + 1
  {
    assert cache[n := e].Keys == cache.Keys + {n};
    assert |cache[n := e].Keys| == |cache[n := e]| && |cache.Keys| == |cache|;
  }

  // ----- The whole run ------------------------------------------------------------------------

  /** A run in which every nonce belongs to one request. */
  ghost predicate OneRequestRun(seed: U64, run: seq<Timed>)
  {
    run == [] || (OneRequestRun(seed, run[..|run| - 1]) && OneRequest(After(seed, run[..|run| - 1]), run[|run| - 1]))
  }

  ghost predicate Admissible(run: seq<Timed>)
  {
    IsRun(0, run) && OneRequestRun(0, run) && run != [] && run[0].now == 0
  }

  lemma Extends(run: seq<Timed>, t: Timed)
    requires Admissible(run) && Enabled(After(0, run), t) && OneRequest(After(0, run), t)
    ensures Admissible(run + [t]) && After(0, run + [t]) == Next(After(0, run), t)
  {
    assert (run + [t])[..|run + [t]| - 1] == run;
  }

  /** The state once request 0 has made session 0. */
  function Founded(src: Addr): State
  {
    Initial(0).(store := [NewClient(1, Numbered(0), [], src, 0)], table := map[1 := 0], nextID := 1,
                cache := map[Nonce(0) := Entry(0, [], 0)])
  }

  lemma FirstComes(src: Addr)
    ensures var s, t := Initial(0), Newcomer(0, src, Choice(1, 0, []));
            Enabled(s, t) && OneRequest(s, t) && Next(s, t) == Founded(src)
  {
    hide Nonce;
    var s := Initial(0);
    FreeIsNext(0, s.table.Keys, 1);
    SkewTest(0, 0);
    assert s.cache - {Nonce(0)} == map[];
  }

  lemma FoundedCrowd(src: Addr)
    ensures Crowd(Founded(src), 0, 0, src) && AllCached(Founded(src), 0)
  {
    hide Nonce;
    assert Member(Founded(src).store[0], 0);
    forall n | n in Founded(src).cache ensures exists i :: 0 <= i <= 0 && n == Nonce(i) {
      assert n == Nonce(0);
    }
  }

  lemma CrowdBegins(src: Addr) returns (run: seq<Timed>)
    ensures Admissible(run) && Crowd(After(0, run), 0, 0, src) && AllCached(After(0, run), 0)
  {
    hide Enabled, OneRequest, Next, Nonce, Crowd, AllCached, Founded;
    FirstComes(src);
    FoundedCrowd(src);
    var t := Newcomer(0, src, Choice(1, 0, []));
    run := [t];
    StartsRun(t);
  }

  lemma StartsRun(t: Timed)
    requires Enabled(Initial(0), t) && OneRequest(Initial(0), t) && t.now == 0
    ensures Admissible([t]) && After(0, [t]) == Next(Initial(0), t)
  {
    hide Enabled, OneRequest, Next;
    var run := [t];
    assert run[..|run| - 1] == [];
    assert After(0, []) == Initial(0) && IsRun(0, []) && OneRequestRun(0, []);
  }

  lemma CrowdGrows(run: seq<Timed>, m: nat, src: Addr) returns (run': seq<Timed>)
    requires Admissible(run) && Crowd(After(0, run), m, m, src) && AllCached(After(0, run), m) && m < CACHE_LIMIT
    ensures Admissible(run') && Crowd(After(0, run'), m + 1, m + 1, src)
    ensures if m + 1 < CACHE_LIMIT then AllCached(After(0, run'), m + 1) else Nonce(0) !in After(0, run').cache
  {
    hide Admissible, Crowd, AllCached, Enabled, OneRequest, Next, Picks, Nonce, Newcomer, Ping;
    var s := After(0, run);
    var ping := Ping(Stamp(m + 1), [], 1, m + 1, src);
    CrowdPing(s, m, src);
    Extends(run, ping);
    var s1 := After(0, run + [ping]);
    SameCached(s, s1, m);
    RunKeepsTable(run + [ping]);
    var choice := NewcomerPicks(s1, m, src);
    NewcomerIsNew(s1, m, src, choice);
    NewcomerAt(m + 1, src, choice);
    Extends(run + [ping], Newcomer(m + 1, src, choice));
    NewcomerStored(s1, m, src, choice);
    NewcomerCached(s1, m, src, choice);
    run' := run + [ping] + [Newcomer(m + 1, src, choice)];
  }

  lemma NewcomerAt(m: nat, src: Addr, choice: Choice)
    requires m <= CACHE_LIMIT
    ensures Newcomer(m, src, choice).now == Stamp(m)
  {
  }

  lemma SameCached(s: State, s': State, m: nat)
    requires AllCached(s, m) && s'.cache == s.cache
    ensures AllCached(s', m)
  {
  }

  lemma RunKeepsTable(run: seq<Timed>)
    requires Admissible(run)
    ensures TableInvariant(After(0, run))
  {
    TableBounded(0, run);
  }

  lemma {:induction false} CrowdOf(m: nat, src: Addr) returns (run: seq<Timed>)
    requires m <= CACHE_LIMIT
    ensures Admissible(run) && Crowd(After(0, run), m, m, src)
    ensures if m < CACHE_LIMIT then AllCached(After(0, run), m) else Nonce(0) !in After(0, run).cache
  {
    if m == 0 {
      run := CrowdBegins(src);
    } else {
      hide Admissible, Crowd, AllCached, Nonce;
      var before := CrowdOf(m - 1, src);
      run := CrowdGrows(before, m - 1, src);
    }
  }

  lemma SomeOldestEntry(cache: map<seq<Byte>, Entry>) returns (n: seq<Byte>)
    requires cache != map[]
    ensures IsOldestEntry(cache, n)
  {
    n := Least(cache.Keys, n => if n in cache then cache[n].created else 0);
  }

  /** The first request once more. */
  function FirstAgain(src: Addr, choice: Choice): Timed
  {
    Arrival(Stamp(CACHE_LIMIT + 1), Numbered(0), [], src, choice)
  }

  lemma FirstAgainPicks(s: State, src: Addr) returns (choice: Choice)
    requires TableInvariant(s) && Crowd(s, CACHE_LIMIT, CACHE_LIMIT + 1, src) && Nonce(0) !in s.cache
    ensures choice.id == CACHE_LIMIT + 2 && (|s.table| >= MAX_SESSIONS ==> choice.evict != 1)
    ensures Picks(s, Numbered(0), choice)
  {
    hide TableInvariant, Crowd, IsNextID, IsOldestSession, IsOldestEntry, Nonce;
    var m: nat := CACHE_LIMIT;
    NextIDIsFree(s, m, m + 1, src);
    choice := Choice(m + 2, 0, []);
    if |s.table| >= MAX_SESSIONS {
      var k := SomeoneIdler(s, m, src);
      choice := choice.(evict := k);
    }
    assert s.cache - {Nonce(0)} == s.cache;
    if |s.cache| >= CACHE_LIMIT {
      var n := SomeOldestEntry(s.cache);
      choice := choice.(drop := n);
    }
    CrowdCounts(s, m, m + 1, src);
  }

  lemma CrowdCounts(s: State, m: nat, p: nat, src: Addr)
    requires Crowd(s, m, p, src)
    ensures s.nextID == m + 1 && |s.store| == m + 1 && s.clock == Stamp(p)
    ensures s.store[0].nonce == Nonce(0) && s.store[0].created == s.store[0].requested == 0
    ensures forall i | 0 <= i < |s.store| :: NotAhead(s.store[i])
  {
    assert Member(s.store[0], 0);
    forall i | 0 <= i < |s.store| ensures NotAhead(s.store[i]) {
      assert Member(s.store[i], i);
    }
  }

  lemma FirstAgainEnabled(s: State, src: Addr, choice: Choice)
    requires Crowd(s, CACHE_LIMIT, CACHE_LIMIT + 1, src) && Nonce(0) !in s.cache && Picks(s, Numbered(0), choice)
    ensures Enabled(s, FirstAgain(src, choice)) && OneRequest(s, FirstAgain(src, choice))
  {
    hide Picks, Nonce, Member;
    SkewTest(Stamp(CACHE_LIMIT + 1), 0);
    forall i | 0 <= i < |s.store| && s.store[i].nonce == Nonce(0) ensures s.store[i].requested == 0 {
      assert Member(s.store[i], i);
      MemberNonce(s.store[i], i);
    }
  }

  lemma MemberNonce(c: Client, i: nat)
    requires Member(c, i) && i <= CACHE_LIMIT && c.nonce == Nonce(0)
    ensures c.requested == 0
  {
    NoncesDiffer(i, 0);
  }

  lemma FirstAgainDoubles(s: State, src: Addr, choice: Choice)
    requires TableInvariant(s) && Crowd(s, CACHE_LIMIT, CACHE_LIMIT + 1, src) && Nonce(0) !in s.cache
    requires choice.id == CACHE_LIMIT + 2 && (|s.table| >= MAX_SESSIONS ==> choice.evict != 1)
    ensures TwoLive(Next(s, FirstAgain(src, choice)), 0, CACHE_LIMIT + 1, 0, 0)
  {
    hide Roomy, Nonce, TableInvariant, Member, NotAhead;
    var m: nat, q := CACHE_LIMIT, Numbered(0);
    CrowdCounts(s, m, m + 1, src);
    RoomyFrame(s, q, choice);
    FirstIsStored(s, m, m + 1, src);
    OnlyFirstIsZero(s, m, src);
    FirstStays(s, q, choice);
  }

  lemma NobodyIsAhead(s: State, src: Addr, choice: Choice)
    requires Crowd(s, CACHE_LIMIT, CACHE_LIMIT + 1, src)
    ensures var s' := Next(s, FirstAgain(src, choice)); forall i | 0 <= i < |s'.store| :: NotAhead(s'.store[i])
  {
    hide Roomy, Nonce, Member, Crowd;
    CrowdCounts(s, CACHE_LIMIT, CACHE_LIMIT + 1, src);
    RoomyFrame(s, Numbered(0), choice);
  }

  /** The limit on new sessions is needed as it is: 4097 new sessions within 4.1 seconds, one more
      than allowed, push the entry of a live session out of the cache, and a copy of its request
      then makes a second one. No request is stamped ahead and no tick is due in the run. */
  lemma OneSessionTooMany(src: Addr) returns (run: seq<Timed>)
    ensures |run| >= 2 && IsRun(0, run) && OneRequestRun(0, run) && TicksOnTime(run, TICK)
    ensures |After(0, run[..|run| - 2]).store| == CACHE_LIMIT + 1
    ensures forall i | 0 <= i < |After(0, run).store| :: NotAhead(After(0, run).store[i])
    ensures TwoLive(After(0, run), 0, CACHE_LIMIT + 1, 0, 0)
  {
    hide Crowd, Enabled, OneRequest, Next, Picks, Nonce, FirstAgain, Ping, TwoLive, NotAhead;
    var m: nat := CACHE_LIMIT;
    var crowd := CrowdOf(m, src);
    var ping := Ping(Stamp(m + 1), [], 1, m + 1, src);
    CrowdCounts(After(0, crowd), m, m, src);
    CrowdPing(After(0, crowd), m, src);
    Extends(crowd, ping);
    var s := After(0, crowd + [ping]);
    RunKeepsTable(crowd + [ping]);
    var choice := FirstAgainPicks(s, src);
    FirstAgainEnabled(s, src, choice);
    Extends(crowd + [ping], FirstAgain(src, choice));
    FirstAgainDoubles(s, src, choice);
    NobodyIsAhead(s, src, choice);
    run := crowd + [ping] + [FirstAgain(src, choice)];
    assert run[..|run| - 2] == crowd;
    FirstAgainAt(src, choice);
  }

  lemma FirstAgainAt(src: Addr, choice: Choice)
    ensures FirstAgain(src, choice).now < TICK
  {
  }
}
