/** What the server's steps do, said without their definitions (pkg/server/server.go:837-1072,
    1414-1500): which datagrams are opened and what each command then does, the three answers to
    a handshake request, and what a cleanup tick and Stop leave. */
module ServerLaws {
  import opened Bytes
  import opened Protocol
  import opened SecureSession
  import opened Handshake
  import opened ServerModel
  import opened ServerTable

  // ----- Datagrams --------------------------------------------------------------------------

  /** The datagram is packet q, sealed under the key of a stored open session and not seen before,
      from a source the session has heard from, inside its punch window, or as a Ping. */
  ghost predicate Arrives(s: State, log: SealLog, wire: seq<Byte>, src: Addr, now: int, ref: nat, q: Packet)
  {
    && ref < |s.store|
    && var c := s.store[ref];
    && c.sid in s.table && s.table[c.sid] == ref && !c.closed
    && (src in c.allowed || src == c.ret || (c.punchTarget.Some? && now < c.punchExpiry) || q.cmd == 7)
    && q.sessionID == c.sid && q.seqNo != 0 && q.cmd != 1 && q.cmd != 2
    && |wire| >= 44 && Unmarshal(wire) == Ok(q.(payload := wire[28..]))
    && (exists e :: EntryFor(e, c.key, c.sid, q.seqNo, wire) && e in log && log[e] == q.payload)
    && forall x | x in c.accepted :: x != q.seqNo && x < q.seqNo + 64
  }

  lemma ArrivalIsOpened(s: State, log: SealLog, wire: seq<Byte>, src: Addr, now: int, target: Option<Addr>, ref: nat,
                        q: Packet)
    requires Arrives(s, log, wire, src, now, ref, q)
    ensures Opened(s, log, wire, src, now, target) == Some(Event(ref, wire, q, src, now, target))
  {
    AuthenticExactly(log, s.store[ref].key, s.store[ref].sid, wire, q);
    hide Authentic, EntryFor, Unmarshal;
  }

  lemma OpenedHasArrived(s: State, log: SealLog, wire: seq<Byte>, src: Addr, now: int, target: Option<Addr>)
    requires TableInvariant(s) && Opened(s, log, wire, src, now, target).Some?
    ensures var e := Opened(s, log, wire, src, now, target).value; Arrives(s, log, wire, src, now, e.ref, e.packet)
  {
    var e := Opened(s, log, wire, src, now, target).value;
    AuthenticExactly(log, s.store[e.ref].key, s.store[e.ref].sid, wire, e.packet);
    assert KeyNames(s, Unmarshal(wire).value.sessionID);
  }

  /** A datagram changes the server exactly when it arrives in this sense, */
  lemma ReceivesExactly(s: State, log: SealLog, wire: seq<Byte>, src: Addr, now: int, target: Option<Addr>)
    requires TableInvariant(s)
    ensures Receive(s, log, wire, src, now, target) != s
            <==> exists ref: nat, q: Packet :: Arrives(s, log, wire, src, now, ref, q)
  {
    hide TableInvariant, Arrives, Opened;
    if ref: nat, q: Packet :| Arrives(s, log, wire, src, now, ref, q) {
      ArrivalIsOpened(s, log, wire, src, now, target, ref, q);
      ArrivalChanges(s, log, wire, src, now, target, ref, q);
    }
    if Opened(s, log, wire, src, now, target).Some? {
      OpenedHasArrived(s, log, wire, src, now, target);
    }
  }

  lemma ArrivalChanges(s: State, log: SealLog, wire: seq<Byte>, src: Addr, now: int, target: Option<Addr>, ref: nat,
                       q: Packet)
    requires Opened(s, log, wire, src, now, target) == Some(Event(ref, wire, q, src, now, target))
    ensures Receive(s, log, wire, src, now, target).history == s.history + [Event(ref, wire, q, src, now, target)]
    ensures Receive(s, log, wire, src, now, target) != s
  {
    assert |s.history + [Event(ref, wire, q, src, now, target)]| == |s.history| + 1;
  }

  /** The traffic of a Source Engine game: a connectionless packet, or eight bytes at least. */
  predicate IsGameTraffic(payload: seq<Byte>)
  {
    4 <= |payload| <= 65507 && (payload[..4] == [255, 255, 255, 255] || |payload| >= 8)
  }

  /** and this is all it changes: the session has seen its number, knows its source and is active;
      game data moves the return path there and ends the window of the endpoint it came from; a
      PunchInit that names an endpoint opens a window of 30 s for it. */
  lemma ArrivalActs(s: State, log: SealLog, wire: seq<Byte>, src: Addr, now: int, target: Option<Addr>, ref: nat,
                    q: Packet)
    requires Arrives(s, log, wire, src, now, ref, q)
    ensures var s', c := Receive(s, log, wire, src, now, target), s.store[ref];
            && |s'.store| == |s.store| && (forall i | 0 <= i < |s.store| && i != ref :: s'.store[i] == s.store[i])
            && s' == s.(store := s'.store, history := s.history + [Event(ref, wire, q, src, now, target)])
            && var c' := s'.store[ref];
               && c'.accepted == c.accepted + {q.seqNo as nat} && c'.allowed == c.allowed + {src}
               && c'.lastActive == now
               && (q.cmd == 9 && IsGameTraffic(q.payload) ==>
                     && c'.ret == src && c'.punchTarget == c.punchTarget
                     && c'.punchExpiry == if c.punchTarget == Some(src) then now else c.punchExpiry)
               && (q.cmd == 11 && target.Some? && target.value.port != 0 ==>
                     c'.ret == c.ret && c'.punchTarget == target && c'.punchExpiry == now + 30_000_000_000)
               && (!(q.cmd == 9 && IsGameTraffic(q.payload))
                   && !(q.cmd == 11 && target.Some? && target.value.port != 0) ==>
                     c'.ret == c.ret && c'.punchTarget == c.punchTarget && c'.punchExpiry == c.punchExpiry)
  {
    hide Opened, Arrives;
    ArrivalIsOpened(s, log, wire, src, now, target, ref, q);
    assert ref < |s.store| by {
      ArrivesAtSession(s, log, wire, src, now, ref, q);
    }
  }

  lemma ArrivesAtSession(s: State, log: SealLog, wire: seq<Byte>, src: Addr, now: int, ref: nat, q: Packet)
    requires Arrives(s, log, wire, src, now, ref, q)
    ensures ref < |s.store|
  {
  }

  // ----- Handshakes -----------------------------------------------------------------------

  /** A request whose nonce is cached for at most two minutes with another public key changes
      nothing; nor does one with the same key while its session lives; any other makes a session
      of its own, heard from its source only, if a key could be derived, and is remembered. */
  lemma ShakesExactly(s: State, q: Request, key: Option<seq<Byte>>, src: Addr, now: int, choice: Choice)
    requires TableInvariant(s)
    ensures var s', n := Shake(s, q, key, src, now, choice), q.clientNonce;
            var recent := n in s.cache && now - s.cache[n].created <= 120_000_000_000;
            if recent && s.cache[n].clientPublic != q.clientPublic then s' == s
            else if recent && Lives(s, s.cache[n].ref) then s' == s
            else if key.None? then
              && s' == s.(cache := s'.cache, nextID := choice.id)
              && s'.cache == map m | m in s.cache && m != n :: s.cache[m]
            else
              && |s'.store| == |s.store| + 1 && n in s'.cache && choice.id in s'.table
              && (|s.table| < 2048 ==> s'.store[..|s.store|] == s.store && s'.table == s.table[choice.id := |s.store|])
              && s'.cache[n] == Entry(|s.store|, q.clientPublic, now) && s'.table[choice.id] == |s.store|
              && var c := s'.store[|s.store|];
                 && c.sid == choice.id && c.key == key.value && c.nonce == n && c.requested == q.timestamp
                 && c.created == now && c.source == c.ret == src && c.allowed == {src} && c.lastActive == now
                 && c.accepted == {} && !c.closed && c.punchTarget == None
  {
    hide Install, Roomy, Present, Lives, TableInvariant;
    var n := q.clientNonce;
    if n in s.cache {
      PresentLives(s, s.cache[n].ref);
    }
    if !Resends(s, q, now) && !Confuses(s, q, now) && key.Some? {
      RoomyFrame(s, q, choice);
      RoomySmall(s, q, choice);
      Installed(Roomy(s, q, choice), q, key.value, src, now, choice);
    }
  }

  lemma RoomySmall(s: State, q: Request, choice: Choice)
    ensures |s.table| < 2048 ==> Roomy(s, q, choice).store == s.store && Roomy(s, q, choice).table == s.table
  {
  }

  lemma Installed(s: State, q: Request, key: seq<Byte>, src: Addr, now: int, choice: Choice)
    ensures var s' := Install(s, q, key, src, now, choice);
            && s'.store == s.store + [NewClient(choice.id, q, key, src, now)]
            && s'.table == s.table[choice.id := |s.store|]
            && q.clientNonce in s'.cache && s'.cache[q.clientNonce] == Entry(|s.store|, q.clientPublic, now)
  {
  }

  /** Session ref is in the table and open. */
  predicate Lives(s: State, ref: nat)
  {
    ref < |s.store| && !s.store[ref].closed && exists k :: k in s.table && s.table[k] == ref
  }

  // ----- Housekeeping -----------------------------------------------------------------------

  /** A tick closes and removes exactly the sessions idle for more than a minute. */
  lemma ReapsExactly(s: State, now: int)
    requires TableInvariant(s)
    ensures var s' := Reap(s, now);
            && (forall k :: k in s'.table <==>
                  k in s.table && s.table[k] < |s.store| && now - s.store[s.table[k]].lastActive <= 60_000_000_000)
            && (forall k | k in s'.table :: s'.table[k] == s.table[k])
            && |s'.store| == |s.store|
            && (forall i | 0 <= i < |s.store| :: s'.store[i].(closed := s.store[i].closed) == s.store[i])
            && (forall i | 0 <= i < |s.store| ::
                  s'.store[i].closed <==> s.store[i].closed || now - s.store[i].lastActive > 60_000_000_000)
            && s' == s.(store := s'.store, table := s'.table)
  {
    hide Idle;
    forall k | k in s.table
      ensures KeyNames(s, k)
      ensures Idle(s, k, now) <==> now - s.store[s.table[k]].lastActive > 60_000_000_000
    {
      assert KeyNames(s, k);
      IdleIs(s, k, now);
    }
    forall i | 0 <= i < |s.store|
      ensures s.store[i].closed || (s.store[i].sid in s.table && s.table[s.store[i].sid] == i)
    {
      assert OpenIffStored(s, i);
    }
  }

  lemma IdleIs(s: State, k: U64, now: int)
    requires k in s.table && s.table[k] < |s.store|
    ensures Idle(s, k, now) <==> now - s.store[s.table[k]].lastActive > 60_000_000_000
  {
  }

  /** It keeps exactly the cache entries of two minutes at most whose session lives. */
  lemma SweepsExactly(s: State, now: int)
    requires TableInvariant(s)
    ensures var s' := Sweep(s, now);
            && (forall n :: n in s'.cache <==>
                  n in s.cache && now - s.cache[n].created <= 120_000_000_000 && Lives(s, s.cache[n].ref))
            && (forall n | n in s'.cache :: s'.cache[n] == s.cache[n])
            && s' == s.(cache := s'.cache)
  {
    forall ref: nat ensures Present(s, ref) <==> Lives(s, ref) {
      PresentLives(s, ref);
    }
  }

  lemma PresentLives(s: State, ref: nat)
    requires TableInvariant(s)
    ensures Present(s, ref) <==> Lives(s, ref)
  {
    if ref < |s.store| {
      forall k | k in s.table && s.table[k] == ref ensures s.store[ref].sid == k {
        assert KeyNames(s, k);
      }
    }
  }

  /** Stop leaves every session closed, and nothing else changed. */
  lemma StopsExactly(s: State)
    requires TableInvariant(s) && !s.stopped
    ensures var s' := Stop(s);
            && s'.stopped && |s'.store| == |s.store| && s' == s.(store := s'.store, stopped := true)
            && forall i | 0 <= i < |s.store| :: s'.store[i] == s.store[i].(closed := true)
  {
    forall i | 0 <= i < |s.store|
      ensures s.store[i].closed || (s.store[i].sid in s.table && s.table[s.store[i].sid] == i)
    {
      assert OpenIffStored(s, i);
    }
  }
}
