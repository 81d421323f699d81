/** One live session per client nonce (pkg/server/server.go:995-1072, 1428-1455): the
    interplay of clock skew, cache expiry, cache eviction and session reaping. */
module OncePerNonce {
  import opened Bytes
  import opened Handshake
  import opened ServerModel
  import opened ServerTable

  /** Sessions made in the closed 120 s window that ends at t. */
  ghost function Made(s: State, t: int): set<nat>
  {
    set i: nat | i < |s.store| && t - CACHE_TTL <= s.store[i].created <= t
  }

  ghost predicate RateBounded(s: State)
  {
    forall t :: |Made(s, t)| <= CACHE_LIMIT
  }

  /** A nonce belongs to one request. */
  ghost predicate OneRequest(s: State, t: Timed)
  {
    t.action.HandshakeRequest? ==>
      forall i | 0 <= i < |s.store| && s.store[i].nonce == t.action.req.clientNonce ::
        s.store[i].requested == t.action.req.timestamp
  }

  /** The environment's side: that, and sessions are not made too fast. */
  ghost predicate HonestStep(s: State, t: Timed)
  {
    OneRequest(s, t) && RateBounded(Next(s, t))
  }

  ghost predicate Honest(seed: U64, run: seq<Timed>)
  {
    run == [] ||
    (Honest(seed, run[..|run| - 1]) && HonestStep(After(seed, run[..|run| - 1]), run[|run| - 1]))
  }

  /** The cache still leads to session i, or i's request has expired for good. */
  predicate Guarded(s: State, i: nat)
    requires i < |s.store|
  {
    var c := s.store[i];
    (c.nonce in s.cache && s.cache[c.nonce].ref == i) || s.clock > c.requested + CACHE_TTL
  }

  /** The request that made the session was not stamped ahead of the clock then. */
  predicate NotAhead(c: Client)
  {
    c.requested <= c.created
  }

  ghost predicate NonceInvariant(s: State)
  {
    && (forall i | 0 <= i < |s.store| && Present(s, i) && NotAhead(s.store[i]) :: Guarded(s, i))
    && (forall i, j | 0 <= i < j < |s.store| && Present(s, i) && Present(s, j) && NotAhead(s.store[i]) ::
          s.store[i].nonce != s.store[j].nonce)
  }

  // ----- Counting -------------------------------------------------------------------------

  lemma {:induction false} DistinctReferences(cache: map<seq<Byte>, Entry>)
    requires forall m, n | m in cache && n in cache && cache[m].ref == cache[n].ref :: m == n
    ensures |set n | n in cache :: cache[n].ref| == |cache|
  {
    if cache != map[] {
      var m :| m in cache;
      var rest := cache - {m};
      DistinctReferences(rest);
      CacheSize(cache, m);
      var refs, others := set n | n in cache :: cache[n].ref, set n | n in rest :: rest[n].ref;
      assert refs == others + {cache[m].ref} by {
        forall r | r in refs ensures r in others + {cache[m].ref} {
          var n :| n in cache && cache[n].ref == r;
          assert n != m ==> n in rest && rest[n].ref == r;
        }
      }
    }
  }

  /** A full cache of recent entries and one new session overfill the window. */
  lemma Crowded(s: State, s': State, now: int, n: seq<Byte>)
    requires CacheInvariant(s) && |s.cache| >= CACHE_LIMIT && IsOldestEntry(s.cache, n)
    requires s.clock <= now
    requires |s'.store| == |s.store| + 1 && s'.store[|s.store|].created == now
    requires forall i | 0 <= i < |s.store| :: s'.store[i].created == s.store[i].created
    requires s.cache[n].created >= now - CACHE_TTL
    ensures |Made(s', now)| > CACHE_LIMIT
  {
    var refs := set m | m in s.cache :: s.cache[m].ref;
    var last: nat := |s.store|;
    DistinctReferences(s.cache);
    assert last !in refs;
    assert |refs + {last}| == |refs| + 1;
    forall r | r in refs + {last} ensures r in Made(s', now) {
    }
    SubsetSize(refs + {last}, Made(s', now));
  }

  /** So when the full cache drops its oldest entry, that entry has expired. */
  lemma DroppedEntryIsOld(s: State, s': State, now: int, n: seq<Byte>)
    requires CacheInvariant(s) && |s.cache| >= CACHE_LIMIT && IsOldestEntry(s.cache, n)
    requires s.clock <= now && RateBounded(s')
    requires |s'.store| == |s.store| + 1 && s'.store[|s.store|].created == now
    requires forall i | 0 <= i < |s.store| :: s'.store[i].created == s.store[i].created
    ensures s.cache[n].created < now - CACHE_TTL
  {
    if s.cache[n].created >= now - CACHE_TTL {
      Crowded(s, s', now, n);
    }
  }

  // ----- Steps ----------------------------------------------------------------------------

  /** Steps that add no session and only take away liveness. */
  lemma FewerLive(s: State, s': State)
    requires NonceInvariant(s) && |s'.store| == |s.store| && s.clock <= s'.clock
    requires forall i | 0 <= i < |s.store| ::
               && s'.store[i].nonce == s.store[i].nonce && s'.store[i].requested == s.store[i].requested
               && s'.store[i].created == s.store[i].created
    requires forall i | 0 <= i < |s.store| && Present(s', i) ::
               Present(s, i) && (NotAhead(s.store[i]) ==> Guarded(s', i))
    ensures NonceInvariant(s')
  {
  }

  lemma ReceiveStep(s: State, t: Timed)
    requires TableInvariant(s) && CacheInvariant(s) && NonceInvariant(s)
    requires Enabled(s, t) && t.action.Datagram?
    ensures NonceInvariant(Next(s, t))
  {
    var s' := Next(s, t);
    ReceiveFrame(s, t.action.log, t.action.wire, t.action.src, t.now, t.action.target);
    forall i | 0 <= i < |s.store| && Present(s', i) ensures Present(s, i) && (NotAhead(s.store[i]) ==> Guarded(s', i)) {
      assert Present(s, i);
      assert NotAhead(s.store[i]) ==> Guarded(s, i);
    }
    FewerLive(s, s');
  }

  lemma ReapStep(s: State, t: Timed)
    requires NonceInvariant(s) && Enabled(s, t) && (t.action.ReapTick? || t.action.StopServer?)
    ensures NonceInvariant(Next(s, t))
  {
    var s' := Next(s, t);
    forall i | 0 <= i < |s.store| && Present(s', i) ensures Present(s, i) && (NotAhead(s.store[i]) ==> Guarded(s', i)) {
      assert Present(s, i);
      assert NotAhead(s.store[i]) ==> Guarded(s, i);
    }
    FewerLive(s, s');
  }

  lemma SweepStep(s: State, t: Timed)
    requires CacheInvariant(s) && NonceInvariant(s) && Enabled(s, t) && t.action.SweepTick?
    ensures NonceInvariant(Next(s, t))
  {
    var s' := Next(s, t);
    forall i | 0 <= i < |s.store| && Present(s', i) ensures Present(s, i) && (NotAhead(s.store[i]) ==> Guarded(s', i)) {
      assert Present(s, i) && (NotAhead(s.store[i]) ==> Guarded(s, i));
    }
    FewerLive(s, s');
  }

  /** A request that makes the server forget or replace its entry finds no live session. */
  lemma NoLiveRival(s: State, t: Timed, i: nat)
    requires CacheInvariant(s) && NonceInvariant(s) && Enabled(s, t) && HonestStep(s, t)
    requires t.action.HandshakeRequest?
    requires !Resends(s, t.action.req, t.now) && !Confuses(s, t.action.req, t.now)
    requires i < |s.store| && Present(s, i) && NotAhead(s.store[i])
    ensures s.store[i].nonce != t.action.req.clientNonce
  {
    assert Guarded(s, i);
    SkewTest(t.now, t.action.req.timestamp);
  }

  lemma ShakeStep(s: State, t: Timed)
    requires TableInvariant(s) && CacheInvariant(s) && NonceInvariant(s)
    requires Enabled(s, t) && HonestStep(s, t) && t.action.HandshakeRequest?
    ensures NonceInvariant(Next(s, t))
  {
    hide TableInvariant, CacheInvariant, RateBounded, HonestStep, Install, Roomy, Allows;
    var req := t.action.req;
    if Makes(s, t) {
      ShakeMakes(s, t);
    } else {
      forall i | 0 <= i < |s.store| && Present(Next(s, t), i)
        ensures Present(s, i) && (NotAhead(s.store[i]) ==> Guarded(Next(s, t), i))
      {
        assert Present(s, i) && (NotAhead(s.store[i]) ==> Guarded(s, i));
        if !Resends(s, req, t.now) && !Confuses(s, req, t.now) && NotAhead(s.store[i]) {
          NoLiveRival(s, t, i);
        }
      }
      FewerLive(s, Next(s, t));
    }
  }

  ghost predicate Makes(s: State, t: Timed)
  {
    && t.action.HandshakeRequest? && t.action.key.Some?
    && !Resends(s, t.action.req, t.now) && !Confuses(s, t.action.req, t.now)
  }

  /** What a request that makes a session does to the store, */
  lemma MadeStore(s: State, req: Request, key: seq<Byte>, src: Addr, now: int, choice: Choice)
    requires choice.id !in s.table
    requires !Resends(s, req, now) && !Confuses(s, req, now)
    ensures var s', last := Shake(s, req, Some(key), src, now, choice), |s.store|;
            && |s'.store| == last + 1
            && s'.store[last].nonce == req.clientNonce && s'.store[last].requested == req.timestamp
            && s'.store[last].created == now
            && (forall i | 0 <= i < last :: SameOrigin(s.store[i], s'.store[i]) && (Present(s', i) ==> Present(s, i)))
  {
    RoomyFrame(s, req, choice);
    InstallFrame(Roomy(s, req, choice), req, key, src, now, choice);
  }

  /** and to the cache. */
  lemma MadeCache(s: State, req: Request, key: seq<Byte>, src: Addr, now: int, choice: Choice)
    requires !Resends(s, req, now) && !Confuses(s, req, now)
    ensures var s' := Shake(s, req, Some(key), src, now, choice);
            && req.clientNonce in s'.cache && s'.cache[req.clientNonce].ref == |s.store|
            && (forall m | m in s.cache && m != req.clientNonce ::
                  (m in s'.cache && s'.cache[m] == s.cache[m])
                  || (m == choice.drop && |Roomy(s, req, choice).cache| >= CACHE_LIMIT))
  {
    RoomyFrame(s, req, choice);
  }

  predicate SameOrigin(c: Client, d: Client)
  {
    c.nonce == d.nonce && c.requested == d.requested && c.created == d.created
  }

  /** Every other entry is kept or has expired. */
  ghost predicate OthersKept(s: State, s': State, n: seq<Byte>, now: int)
  {
    forall m | m in s.cache && m != n ::
      (m in s'.cache && s'.cache[m] == s.cache[m]) || s.cache[m].created < now - CACHE_TTL
  }

  lemma DroppedHasExpired(s: State, t: Timed)
    requires TableInvariant(s) && CacheInvariant(s) && Enabled(s, t) && HonestStep(s, t) && Makes(s, t)
    requires |Roomy(s, t.action.req, t.action.choice).cache| >= CACHE_LIMIT
    ensures var cache := s.cache - {t.action.req.clientNonce};
            t.action.choice.drop in cache && cache[t.action.choice.drop].created < t.now - CACHE_TTL
  {
    hide TableInvariant, Roomy, Shake, Resends, Confuses, RateBounded;
    var req, key, choice := t.action.req, t.action.key.value, t.action.choice;
    MadeStore(s, req, key, t.action.from, t.now, choice);
    RoomyKeepsTable(s, req, choice);
    RoomyFrame(s, req, choice);
    DroppedEntryIsOld(Roomy(s, req, choice), Next(s, t), t.now, choice.drop);
  }

  lemma MadeKeepsOthers(s: State, t: Timed)
    requires TableInvariant(s) && CacheInvariant(s) && Enabled(s, t) && HonestStep(s, t) && Makes(s, t)
    ensures OthersKept(s, Next(s, t), t.action.req.clientNonce, t.now)
  {
    hide TableInvariant, CacheInvariant, Roomy, Shake, Resends, Confuses, RateBounded, HonestStep, Enabled;
    MadeCache(s, t.action.req, t.action.key.value, t.action.from, t.now, t.action.choice);
    if |Roomy(s, t.action.req, t.action.choice).cache| >= CACHE_LIMIT {
      DroppedHasExpired(s, t);
    }
  }

  lemma SurvivorsWereGuarded(s: State, t: Timed, i: nat)
    requires CacheInvariant(s) && NonceInvariant(s)
    requires Enabled(s, t) && HonestStep(s, t) && Makes(s, t)
    requires i < |s.store| && Present(Next(s, t), i)
    ensures Present(s, i)
    ensures NotAhead(s.store[i]) ==> s.store[i].nonce != t.action.req.clientNonce && Guarded(s, i)
  {
    MadeStore(s, t.action.req, t.action.key.value, t.action.from, t.now, t.action.choice);
    assert Present(Act(s, t), i);
    if NotAhead(s.store[i]) {
      NoLiveRival(s, t, i);
    }
  }

  lemma ShakeMakes(s: State, t: Timed)
    requires TableInvariant(s) && CacheInvariant(s) && NonceInvariant(s)
    requires Enabled(s, t) && HonestStep(s, t) && Makes(s, t)
    ensures NonceInvariant(Next(s, t))
  {
    MadeStore(s, t.action.req, t.action.key.value, t.action.from, t.now, t.action.choice);
    MadeCache(s, t.action.req, t.action.key.value, t.action.from, t.now, t.action.choice);
    MadeKeepsOthers(s, t);
    forall i | 0 <= i < |s.store| && Present(Next(s, t), i)
      ensures Present(s, i)
      ensures NotAhead(s.store[i]) ==> s.store[i].nonce != t.action.req.clientNonce && Guarded(s, i)
    {
      SurvivorsWereGuarded(s, t, i);
    }
    MadeKeeps(s, Next(s, t), t.action.req.clientNonce, t.now);
  }

  lemma MadeKeeps(s: State, s': State, n: seq<Byte>, now: int)
    requires CacheInvariant(s) && NonceInvariant(s) && s.clock <= now == s'.clock
    requires |s'.store| == |s.store| + 1
    requires forall i | 0 <= i < |s.store| :: SameOrigin(s.store[i], s'.store[i])
    requires s'.store[|s.store|].nonce == n
    requires n in s'.cache && s'.cache[n].ref == |s.store|
    requires OthersKept(s, s', n, now)
    requires forall i | 0 <= i < |s.store| && Present(s', i) ::
               Present(s, i) && (NotAhead(s.store[i]) ==> s.store[i].nonce != n && Guarded(s, i))
    ensures NonceInvariant(s')
  {
    var last := |s.store|;
    forall i | 0 <= i < |s'.store|
      ensures Present(s', i) && NotAhead(s'.store[i]) ==> Guarded(s', i)
    {
      assert i < last ==> SameOrigin(s.store[i], s'.store[i]);
    }
    forall i, j | 0 <= i < j < |s'.store| && Present(s', i) && Present(s', j) && NotAhead(s'.store[i])
      ensures s'.store[i].nonce != s'.store[j].nonce
    {
      assert SameOrigin(s.store[i], s'.store[i]);
      assert j < last ==> SameOrigin(s.store[j], s'.store[j]);
    }
  }

  lemma {:induction false} Invariantly(seed: U64, run: seq<Timed>)
    requires IsRun(seed, run) && Honest(seed, run)
    ensures NonceInvariant(After(seed, run))
  {
    if run != [] {
      var before, t := run[..|run| - 1], run[|run| - 1];
      var s := After(seed, before);
      Invariantly(seed, before);
      TableBounded(seed, before);
      match t.action {
        case Datagram(_, _, _, _) => ReceiveStep(s, t);
        case HandshakeRequest(_, _, _, _) => ShakeStep(s, t);
        case ReapTick => ReapStep(s, t);
        case SweepTick => SweepStep(s, t);
        case StopServer => ReapStep(s, t);
      }
    }
  }

  /** In every honest run, two live sessions made for one client nonce mean that the request of
      the earlier one was stamped ahead of the clock when it was made. */
  lemma TwoLiveMeansAhead(seed: U64, run: seq<Timed>, i: nat, j: nat)
    requires IsRun(seed, run) && Honest(seed, run)
    requires var s := After(seed, run);
             i < j < |s.store| && Present(s, i) && Present(s, j) && s.store[i].nonce == s.store[j].nonce
    ensures After(seed, run).store[i].requested > After(seed, run).store[i].created
  {
    Invariantly(seed, run);
  }

  /** No two live sessions were made for one client nonce. */
  ghost predicate OneLivePerNonce(s: State)
  {
    forall i, j | 0 <= i < |s.store| && 0 <= j < |s.store| && Present(s, i) && Present(s, j)
                  && s.store[i].nonce == s.store[j].nonce :: i == j
  }

  lemma DistinctIsOne(s: State)
    requires NonceInvariant(s) && forall i | 0 <= i < |s.store| :: NotAhead(s.store[i])
    ensures OneLivePerNonce(s)
  {
  }

  /** So without requests stamped ahead there is one live session for a nonce at most. */
  lemma OneLiveSession(seed: U64, run: seq<Timed>)
    requires IsRun(seed, run) && Honest(seed, run)
    requires forall i | 0 <= i < |After(seed, run).store| :: NotAhead(After(seed, run).store[i])
    ensures OneLivePerNonce(After(seed, run))
  {
    Invariantly(seed, run);
    DistinctIsOne(After(seed, run));
  }
}
