/** What every run of the server keeps about its session table. */
module ServerTable {
  import opened Bytes
  import opened SecureSession
  import opened Handshake
  import opened ServerModel

  /** The table is bounded; each key is its session's non-zero ID; stored sessions are open
      until Stop; every session no longer stored is closed. */
  ghost predicate TableInvariant(s: State)
  {
    && |s.table| <= MAX_SESSIONS
    && (forall k | k in s.table :: KeyNames(s, k))
    && (forall i | 0 <= i < |s.store| :: OpenIffStored(s, i))
  }

  predicate KeyNames(s: State, k: U64)
    requires k in s.table
  {
    k != 0 && s.table[k] < |s.store| && s.store[s.table[k]].sid == k
  }

  predicate OpenIffStored(s: State, i: nat)
    requires i < |s.store|
  {
    if Stored(s, i) then !s.stopped ==> !s.store[i].closed else s.store[i].closed
  }

  predicate Stored(s: State, i: nat)
    requires i < |s.store|
  {
    s.store[i].sid in s.table && s.table[s.store[i].sid] == i
  }

  /** Cache entries name the session they were made for; at most 2*MAX_SESSIONS of them. */
  ghost predicate CacheInvariant(s: State)
  {
    && |s.cache| <= CACHE_LIMIT
    && (forall n | n in s.cache ::
          && s.cache[n].ref < |s.store|
          && s.store[s.cache[n].ref].nonce == n
          && s.store[s.cache[n].ref].created == s.cache[n].created)
    && (forall i | 0 <= i < |s.store| :: s.store[i].created <= s.clock)
  }

  /** Only the table, the IDs and the closed flags matter to the table's invariant. */
  lemma SameTable(s: State, s': State)
    requires TableInvariant(s) && s'.table == s.table && s'.stopped == s.stopped && |s'.store| == |s.store|
    requires forall i | 0 <= i < |s.store| ::
               s'.store[i].sid == s.store[i].sid && s'.store[i].closed == s.store[i].closed
    ensures TableInvariant(s')
  {
    forall k | k in s'.table ensures KeyNames(s', k) {
      assert KeyNames(s, k);
    }
    forall i | 0 <= i < |s'.store| ensures OpenIffStored(s', i) {
      assert OpenIffStored(s, i);
    }
  }

  /** A datagram changes neither the table, the cache nor a session's identity. */
  lemma ReceiveFrame(s: State, log: SealLog, wire: seq<Byte>, src: Addr, now: int, target: Option<Addr>)
    ensures var s' := Receive(s, log, wire, src, now, target);
            && s'.table == s.table && s'.cache == s.cache && s'.nextID == s.nextID && s'.stopped == s.stopped
            && |s'.store| == |s.store|
            && forall i | 0 <= i < |s.store| ::
                 && s'.store[i].sid == s.store[i].sid && s'.store[i].key == s.store[i].key
                 && s'.store[i].nonce == s.store[i].nonce && s'.store[i].requested == s.store[i].requested
                 && s'.store[i].created == s.store[i].created && s'.store[i].closed == s.store[i].closed
                 && s'.store[i].source == s.store[i].source
  {
  }

  lemma ReceiveKeepsTable(s: State, log: SealLog, wire: seq<Byte>, src: Addr, now: int, target: Option<Addr>)
    requires TableInvariant(s) && CacheInvariant(s)
    ensures TableInvariant(Receive(s, log, wire, src, now, target))
    ensures CacheInvariant(Receive(s, log, wire, src, now, target))
  {
    ReceiveFrame(s, log, wire, src, now, target);
    SameTable(s, Receive(s, log, wire, src, now, target));
  }

  lemma EvictedSize(s: State, k: U64)
    requires k in s.table && s.table[k] < |s.store|
    ensures |Evict(s, k).table| == |s.table| - 1
  {
    var table := s.table - {k};
    assert table.Keys == s.table.Keys - {k};
    assert |table.Keys| == |table| && |s.table.Keys| == |s.table|;
  }

  lemma EvictKeepsTable(s: State, k: U64)
    requires TableInvariant(s) && CacheInvariant(s) && k in s.table
    ensures TableInvariant(Evict(s, k)) && CacheInvariant(Evict(s, k))
    ensures |Evict(s, k).table| == |s.table| - 1
  {
    var s' := Evict(s, k);
    assert KeyNames(s, k);
    EvictedSize(s, k);
    forall j | j in s'.table ensures KeyNames(s', j) {
      assert KeyNames(s, j);
    }
    forall i | 0 <= i < |s'.store| ensures OpenIffStored(s', i) {
      assert OpenIffStored(s, i);
    }
  }

  lemma InstalledSize(s: State, req: Request, key: seq<Byte>, src: Addr, now: int, choice: Choice)
    requires |s.table| < MAX_SESSIONS
    ensures |Install(s, req, key, src, now, choice).table| <= MAX_SESSIONS
  {
    var table := s.table[choice.id := |s.store|];
    assert table.Keys == s.table.Keys + {choice.id};
    assert |table.Keys| == |table| && |s.table.Keys| == |s.table|;
  }

  lemma InstallKeepsTable(s: State, req: Request, key: seq<Byte>, src: Addr, now: int, choice: Choice)
    requires TableInvariant(s) && |s.table| < MAX_SESSIONS
    requires choice.id != 0 && choice.id !in s.table
    ensures TableInvariant(Install(s, req, key, src, now, choice))
  {
    var s', last := Install(s, req, key, src, now, choice), |s.store|;
    InstalledSize(s, req, key, src, now, choice);
    forall k | k in s'.table ensures KeyNames(s', k) {
      if k != choice.id {
        assert KeyNames(s, k);
      }
    }
    forall i | 0 <= i < |s'.store| ensures OpenIffStored(s', i) {
      if i < last {
        assert s'.store[i] == s.store[i] && OpenIffStored(s, i);
      }
    }
  }

  lemma InstallKeepsCache(s: State, req: Request, key: seq<Byte>, src: Addr, now: int, choice: Choice)
    requires CacheInvariant(s) && req.clientNonce !in s.cache && s.clock <= now
    requires |s.cache| >= CACHE_LIMIT ==> choice.drop in s.cache
    ensures CacheInvariant(Install(s, req, key, src, now, choice).(clock := now))
  {
    TrimmedSize(s.cache, choice.drop, req.clientNonce, Entry(|s.store|, req.clientPublic, now));
  }

  lemma TrimmedSize(cache: map<seq<Byte>, Entry>, drop: seq<Byte>, n: seq<Byte>, e: Entry)
    requires |cache| <= CACHE_LIMIT && n !in cache && (|cache| >= CACHE_LIMIT ==> drop in cache)
    ensures |(if |cache| >= CACHE_LIMIT then cache - {drop} else cache)[n := e]| <= CACHE_LIMIT
  {
    CacheSize(cache, drop);
    var kept := if |cache| >= CACHE_LIMIT then cache - {drop} else cache;
    assert kept[n := e].Keys == kept.Keys + {n};
    assert |kept[n := e].Keys| == |kept[n := e]| && |kept.Keys| == |kept|;
  }

  lemma ForgetKeepsTable(s: State, req: Request, choice: Choice)
    requires TableInvariant(s) && CacheInvariant(s)
    ensures TableInvariant(Forget(s, req, choice)) && CacheInvariant(Forget(s, req, choice))
  {
    CacheSize(s.cache, req.clientNonce);
    SameTable(s, Forget(s, req, choice));
  }

  lemma RoomyKeepsTable(s: State, req: Request, choice: Choice)
    requires TableInvariant(s) && CacheInvariant(s) && (|s.table| >= MAX_SESSIONS ==> choice.evict in s.table)
    ensures TableInvariant(Forget(s, req, choice)) && CacheInvariant(Forget(s, req, choice))
    ensures TableInvariant(Roomy(s, req, choice)) && CacheInvariant(Roomy(s, req, choice))
    ensures |Roomy(s, req, choice).table| < MAX_SESSIONS
  {
    hide CacheInvariant, Evict, KeyNames, OpenIffStored;
    ForgetKeepsTable(s, req, choice);
    if |s.table| >= MAX_SESSIONS {
      EvictKeepsTable(Forget(s, req, choice), choice.evict);
    }
  }

  lemma EvictClient(s: State, k: U64, i: nat)
    requires i < |s.store|
    ensures var s' := Evict(s, k);
            && |s'.store| == |s.store|
            && (s'.store[i] == s.store[i] || s'.store[i] == s.store[i].(closed := true))
            && (Present(s', i) ==> Present(s, i))
  {
  }

  lemma ForgetFrame(s: State, req: Request, choice: Choice)
    ensures var s' := Forget(s, req, choice);
            && s'.store == s.store && s'.table == s.table && s'.cache == s.cache - {req.clientNonce}
            && s'.clock == s.clock && s'.history == s.history && s'.stopped == s.stopped
  {
  }

  lemma EvictRest(s: State, k: U64)
    ensures var s' := Evict(s, k);
            && s'.cache == s.cache && s'.clock == s.clock && s'.history == s.history && s'.stopped == s.stopped
            && s'.table.Keys <= s.table.Keys && |s'.store| == |s.store|
  {
  }

  /** Making room changes no session but for closing one. */
  lemma RoomyFrame(s: State, req: Request, choice: Choice)
    ensures var s' := Roomy(s, req, choice);
            && s'.cache == s.cache - {req.clientNonce} && s'.clock == s.clock
            && s'.history == s.history && s'.stopped == s.stopped
            && s'.table.Keys <= s.table.Keys
            && |s'.store| == |s.store|
            && (forall i | 0 <= i < |s.store| ::
                  && (s'.store[i] == s.store[i] || s'.store[i] == s.store[i].(closed := true))
                  && (Present(s', i) ==> Present(s, i)))
  {
    hide Evict, Forget;
    var forgotten := Forget(s, req, choice);
    ForgetFrame(s, req, choice);
    EvictRest(forgotten, choice.evict);
    forall i | 0 <= i < |s.store| ensures Present(forgotten, i) == Present(s, i) {
    }
    forall i | 0 <= i < |s.store|
      ensures var e := Evict(forgotten, choice.evict);
              && |e.store| == |s.store| && (e.store[i] == s.store[i] || e.store[i] == s.store[i].(closed := true))
              && (Present(e, i) ==> Present(s, i))
    {
      EvictClient(forgotten, choice.evict, i);
    }
  }

  lemma InstallFrame(s: State, req: Request, key: seq<Byte>, src: Addr, now: int, choice: Choice)
    requires choice.id !in s.table
    ensures var s' := Install(s, req, key, src, now, choice);
            && |s'.store| == |s.store| + 1
            && s'.store[|s.store|] == Client(choice.id, key, req.clientNonce, req.timestamp, src, now,
                                             {}, false, src, {src}, now, None, 0)
            && (forall i | 0 <= i < |s.store| :: s'.store[i] == s.store[i] && (Present(s', i) ==> Present(s, i)))
  {
    var s' := Install(s, req, key, src, now, choice);
    forall i | 0 <= i < |s.store| && Present(s', i) ensures Present(s, i) {
      assert choice.id in s'.table && s'.table[choice.id] == |s.store|;
    }
  }

  lemma ShakeKeepsTable(s: State, req: Request, key: Option<seq<Byte>>, src: Addr, now: int, choice: Choice)
    requires TableInvariant(s) && CacheInvariant(s) && Allows(s, req, now, choice) && s.clock <= now
    ensures TableInvariant(Shake(s, req, key, src, now, choice))
    ensures CacheInvariant(Shake(s, req, key, src, now, choice).(clock := now))
  {
    if !Resends(s, req, now) && !Confuses(s, req, now) {
      RoomyKeepsTable(s, req, choice);
      RoomyFrame(s, req, choice);
      if key.Some? {
        InstallKeepsTable(Roomy(s, req, choice), req, key.value, src, now, choice);
        InstallKeepsCache(Roomy(s, req, choice), req, key.value, src, now, choice);
      }
    }
  }

  lemma CacheSize(cache: map<seq<Byte>, Entry>, n: seq<Byte>)
    ensures |cache - {n}| == if n in cache then |cache| - 1 else |cache|
  {
    assert (cache - {n}).Keys == cache.Keys - {n};
    assert |(cache - {n}).Keys| == |cache - {n}| && |cache.Keys| == |cache|;
  }

  lemma ReapKeepsTable(s: State, now: int)
    requires TableInvariant(s) && CacheInvariant(s)
    ensures TableInvariant(Reap(s, now)) && CacheInvariant(Reap(s, now))
  {
    var s' := Reap(s, now);
    assert s'.table.Keys <= s.table.Keys;
    SubsetSize(s'.table.Keys, s.table.Keys);
    assert |s'.table.Keys| == |s'.table| && |s.table.Keys| == |s.table|;
    forall k | k in s'.table ensures KeyNames(s', k) {
      assert KeyNames(s, k);
    }
    forall i | 0 <= i < |s'.store| ensures OpenIffStored(s', i) {
      assert OpenIffStored(s, i);
    }
  }

  lemma {:induction false} SubsetSize<T>(a: set<T>, b: set<T>)
    requires a <= b
    ensures |a| <= |b|
  {
    assert b == a + (b - a);
  }

  lemma SweepKeepsTable(s: State, now: int)
    requires TableInvariant(s) && CacheInvariant(s)
    ensures TableInvariant(Sweep(s, now)) && CacheInvariant(Sweep(s, now))
  {
    var s' := Sweep(s, now);
    assert s'.cache.Keys <= s.cache.Keys;
    SubsetSize(s'.cache.Keys, s.cache.Keys);
    assert |s'.cache.Keys| == |s'.cache| && |s.cache.Keys| == |s.cache|;
    SameTable(s, s');
  }

  lemma StopKeepsTable(s: State)
    requires TableInvariant(s) && CacheInvariant(s)
    ensures TableInvariant(Stop(s)) && CacheInvariant(Stop(s))
  {
    var s' := Stop(s);
    forall k | k in s'.table ensures KeyNames(s', k) {
      assert KeyNames(s, k);
    }
    forall i | 0 <= i < |s'.store| ensures OpenIffStored(s', i) {
      assert OpenIffStored(s, i);
    }
  }

  lemma LaterKeepsCache(s: State, now: int)
    requires CacheInvariant(s) && s.clock <= now
    ensures CacheInvariant(s.(clock := now))
  {
  }

  lemma NextKeepsTable(s: State, t: Timed)
    requires TableInvariant(s) && CacheInvariant(s) && Enabled(s, t)
    ensures TableInvariant(Next(s, t)) && CacheInvariant(Next(s, t))
  {
    hide TableInvariant, CacheInvariant, Receive, Shake, Reap, Sweep, Stop, Allows, WithinSkew;
    SameClock(s, t);
    match t.action {
      case Datagram(log, wire, src, target) => ReceiveKeepsTable(s, log, wire, src, t.now, target);
      case HandshakeRequest(req, key, from, choice) => ShakeKeepsTable(s, req, key, from, t.now, choice);
      case ReapTick => ReapKeepsTable(s, t.now);
      case SweepTick => SweepKeepsTable(s, t.now);
      case StopServer => StopKeepsTable(s);
    }
    SameTable(Act(s, t), Next(s, t));
    if !t.action.HandshakeRequest? {
      LaterKeepsCache(Act(s, t), t.now);
    }
  }

  /** Only Next moves the clock. */
  lemma SameClock(s: State, t: Timed)
    ensures Act(s, t).clock == s.clock
  {
  }

  lemma TableBounded(seed: U64, run: seq<Timed>)
    requires IsRun(seed, run)
    ensures TableInvariant(After(seed, run)) && CacheInvariant(After(seed, run))
    ensures var s := After(seed, run);
            && |s.table| <= 2048 && |s.cache| <= 4096
            && (forall k | k in s.table :: k != 0 && s.table[k] < |s.store| && s.store[s.table[k]].sid == k)
            && (forall k | k in s.table && !s.stopped :: !s.store[s.table[k]].closed)
            && (forall i | 0 <= i < |s.store| && !s.store[i].closed :: exists k :: k in s.table && s.table[k] == i)
  {
    hide After, IsRun, TableInvariant, CacheInvariant;
    Bounded(seed, run);
    TableSays(After(seed, run));
  }

  lemma TableSays(s: State)
    requires TableInvariant(s) && CacheInvariant(s)
    ensures |s.table| <= 2048 && |s.cache| <= 4096
    ensures forall k | k in s.table :: k != 0 && s.table[k] < |s.store| && s.store[s.table[k]].sid == k
    ensures forall k | k in s.table && !s.stopped :: !s.store[s.table[k]].closed
    ensures forall i | 0 <= i < |s.store| && !s.store[i].closed :: exists k :: k in s.table && s.table[k] == i
  {
    forall k | k in s.table ensures KeyNames(s, k) && (!s.stopped ==> !s.store[s.table[k]].closed) {
      assert KeyNames(s, k);
      assert OpenIffStored(s, s.table[k]);
    }
    forall i | 0 <= i < |s.store| && !s.store[i].closed ensures exists k :: k in s.table && s.table[k] == i {
      assert OpenIffStored(s, i);
      assert s.store[i].sid in s.table;
    }
  }

  lemma {:induction false} Bounded(seed: U64, run: seq<Timed>)
    requires IsRun(seed, run)
    ensures TableInvariant(After(seed, run)) && CacheInvariant(After(seed, run))
  {
    if run != [] {
      Bounded(seed, run[..|run| - 1]);
      NextKeepsTable(After(seed, run[..|run| - 1]), run[|run| - 1]);
    }
  }

  lemma {:induction false} Least<K>(keys: set<K>, f: K -> int) returns (k: K)
    requires keys != {}
    ensures k in keys && forall j | j in keys :: f(k) <= f(j)
  {
    k :| k in keys;
    if keys != {k} {
      var rest := Least(keys - {k}, f);
      if f(rest) < f(k) {
        k := rest;
      }
    }
  }
}
