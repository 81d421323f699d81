/** Every session's addresses and replay set are determined by the packets it opened
    (pkg/server/server.go:851-875, 954-971, 1003-1023, 1229-1261). */
module SessionHistory {
  import opened Bytes
  import opened Protocol
  import opened Replay
  import opened SecureSession
  import opened Handshake
  import opened ServerModel
  import opened ServerTable

  /** Numbers of the packets session i opened. */
  function Numbers(h: seq<Event>, i: nat): set<nat>
  {
    set e | e in h && e.ref == i :: e.packet.seqNo as nat
  }

  /** Where the packets session i opened came from. */
  function Sources(h: seq<Event>, i: nat): set<Addr>
  {
    set e | e in h && e.ref == i :: e.src
  }

  /** The source of the latest game datagram session i opened, or of its handshake. */
  function LatestGameSource(h: seq<Event>, i: nat, source: Addr): Addr
  {
    if h == [] then source
    else
      var e := h[|h| - 1];
      if e.ref == i && IsGameData(e.packet) then e.src else LatestGameSource(h[..|h| - 1], i, source)
  }

  function LatestTime(h: seq<Event>, i: nat, created: int): int
  {
    if h == [] then created
    else
      var e := h[|h| - 1];
      if e.ref == i then e.time else LatestTime(h[..|h| - 1], i, created)
  }

  /** The punch endpoint and the end of its window: the latest PunchInit that named one opens
      30 s, and game data from that endpoint closes them. */
  function PunchWindow(h: seq<Event>, i: nat): (Option<Addr>, int)
  {
    if h == [] then (None, 0)
    else
      var before, e := PunchWindow(h[..|h| - 1], i), h[|h| - 1];
      if e.ref != i then before
      else if IsPunchInit(e) then (e.target, e.time + PUNCH_WINDOW)
      else if IsGameData(e.packet) && before.0 == Some(e.src) then (before.0, e.time)
      else before
  }

  /** The session is what its history says. */
  ghost predicate Explained(h: seq<Event>, i: nat, c: Client)
  {
    && c.accepted == Numbers(h, i)
    && c.allowed == {c.source} + Sources(h, i)
    && c.ret == LatestGameSource(h, i, c.source)
    && c.lastActive == LatestTime(h, i, c.created)
    && (c.punchTarget, c.punchExpiry) == PunchWindow(h, i)
  }

  /** An event belongs to a session of the store and is what its datagram decodes to. */
  ghost predicate EventFits(s: State, e: Event)
  {
    && e.ref < |s.store|
    && e.packet.sessionID == s.store[e.ref].sid
    && Unmarshal(e.wire).Ok?
    && Unmarshal(e.wire).value == e.packet.(payload := Unmarshal(e.wire).value.payload)
    && !IsHandshake(e.packet)
  }

  ghost predicate HistoryInvariant(s: State)
  {
    && (forall i | 0 <= i < |s.store| :: Explained(s.history, i, s.store[i]))
    && (forall a | 0 <= a < |s.history| :: EventFits(s, s.history[a]))
    && (forall a, b | 0 <= a < b < |s.history| && s.history[a].ref == s.history[b].ref ::
          s.history[a].packet.seqNo != s.history[b].packet.seqNo)
  }

  lemma NumberOpened(h: seq<Event>, i: nat, n: nat)
    ensures n in Numbers(h, i) <==> exists a :: 0 <= a < |h| && h[a].ref == i && h[a].packet.seqNo == n
  {
  }

  lemma ExtendedSets(h: seq<Event>, e: Event, i: nat)
    ensures Numbers(h + [e], i) == Numbers(h, i) + if e.ref == i then {e.packet.seqNo as nat} else {}
    ensures Sources(h + [e], i) == Sources(h, i) + if e.ref == i then {e.src} else {}
  {
    assert forall x :: x in h + [e] <==> x in h || x == e;
  }

  /** One more event explains its session's next state and no other session's change. */
  lemma Extended(h: seq<Event>, e: Event, i: nat, c: Client)
    requires Explained(h, i, c)
    ensures Explained(h + [e], i, if e.ref == i then Applied(c, e) else c)
  {
    ExtendedSets(h, e, i);
    assert (h + [e])[..|h + [e]| - 1] == h;
  }

  lemma OpenedEvent(s: State, log: SealLog, wire: seq<Byte>, src: Addr, now: int, target: Option<Addr>)
    requires TableInvariant(s) && Opened(s, log, wire, src, now, target).Some?
    ensures var e := Opened(s, log, wire, src, now, target).value;
            && EventFits(s, e) && e.wire == wire && e.src == src && e.time == now && e.target == target
            && Present(s, e.ref)
            && Authentic(log, s.store[e.ref].key, s.store[e.ref].sid, wire) == Some(e.packet)
            && Fresh(s.store[e.ref].accepted, e.packet.seqNo)
            && (Authorized(s.store[e.ref], src) || e.packet.cmd == CMD_PING || PunchOpen(s.store[e.ref], now))
  {
    var p := Unmarshal(wire).value;
    assert KeyNames(s, p.sessionID);
  }

  lemma ReceiveExplains(s: State, e: Event, s': State)
    requires HistoryInvariant(s) && e.ref < |s.store|
    requires s' == s.(store := s.store[e.ref := Applied(s.store[e.ref], e)], history := s.history + [e])
    ensures forall i | 0 <= i < |s'.store| :: Explained(s'.history, i, s'.store[i])
  {
    forall i | 0 <= i < |s'.store| ensures Explained(s'.history, i, s'.store[i]) {
      Extended(s.history, e, i, s.store[i]);
    }
  }

  lemma ReceiveFits(s: State, e: Event, s': State)
    requires HistoryInvariant(s) && EventFits(s, e) && s'.history == s.history + [e]
    requires |s'.store| == |s.store| && forall i | 0 <= i < |s.store| :: s'.store[i].sid == s.store[i].sid
    ensures forall a | 0 <= a < |s'.history| :: EventFits(s', s'.history[a])
  {
    forall a | 0 <= a < |s'.history| ensures EventFits(s', s'.history[a]) {
      assert a < |s.history| ==> EventFits(s, s.history[a]);
    }
  }

  lemma FreshIsNew(s: State, e: Event)
    requires HistoryInvariant(s) && e.ref < |s.store| && Fresh(s.store[e.ref].accepted, e.packet.seqNo)
    ensures forall a | 0 <= a < |s.history| && s.history[a].ref == e.ref ::
              s.history[a].packet.seqNo != e.packet.seqNo
  {
    assert Explained(s.history, e.ref, s.store[e.ref]);
    forall a | 0 <= a < |s.history| && s.history[a].ref == e.ref
      ensures s.history[a].packet.seqNo != e.packet.seqNo
    {
      NumberOpened(s.history, e.ref, s.history[a].packet.seqNo);
    }
  }

  lemma EventIsStored(s: State, e: Event)
    ensures EventFits(s, e) ==> e.ref < |s.store|
  {
  }

  lemma ReceiveKeepsHistory(s: State, log: SealLog, wire: seq<Byte>, src: Addr, now: int, target: Option<Addr>)
    requires TableInvariant(s) && HistoryInvariant(s)
    ensures HistoryInvariant(Receive(s, log, wire, src, now, target))
  {
    hide Explained, EventFits, Applied, Opened, Authentic, Authorized, PunchOpen, Fresh, TableInvariant, Present;
    if Opened(s, log, wire, src, now, target).Some? {
      var e := Opened(s, log, wire, src, now, target).value;
      EventIsStored(s, e);
      var s' := Receive(s, log, wire, src, now, target);
      OpenedEvent(s, log, wire, src, now, target);
      ReceiveFrame(s, log, wire, src, now, target);
      ReceiveExplains(s, e, s');
      ReceiveFits(s, e, s');
      FreshIsNew(s, e);
    }
  }

  /** Steps that leave the history alone and change at most closed flags. */
  lemma SameSessions(s: State, s': State)
    requires HistoryInvariant(s) && s'.history == s.history && |s'.store| == |s.store|
    requires forall i | 0 <= i < |s.store| :: s'.store[i] == s.store[i] || s'.store[i] == s.store[i].(closed := true)
    ensures HistoryInvariant(s')
  {
    forall i | 0 <= i < |s'.store| ensures Explained(s'.history, i, s'.store[i]) {
      assert Explained(s.history, i, s.store[i]);
    }
    forall a | 0 <= a < |s'.history| ensures EventFits(s', s'.history[a]) {
      assert EventFits(s, s.history[a]);
    }
  }

  lemma {:induction false} NothingOpened(h: seq<Event>, i: nat, source: Addr, created: int)
    requires forall a | 0 <= a < |h| :: h[a].ref != i
    ensures Numbers(h, i) == {} && Sources(h, i) == {}
    ensures LatestGameSource(h, i, source) == source && LatestTime(h, i, created) == created
    ensures PunchWindow(h, i) == (None, 0)
  {
    if h != [] {
      NothingOpened(h[..|h| - 1], i, source, created);
    }
  }

  lemma InstallKeepsHistory(s: State, req: Request, key: seq<Byte>, src: Addr, now: int, choice: Choice)
    requires HistoryInvariant(s) && choice.id !in s.table
    ensures HistoryInvariant(Install(s, req, key, src, now, choice))
  {
    var s', last := Install(s, req, key, src, now, choice), |s.store|;
    InstallFrame(s, req, key, src, now, choice);
    forall a | 0 <= a < |s'.history| ensures EventFits(s', s'.history[a]) && s'.history[a].ref != last {
      assert EventFits(s, s.history[a]);
    }
    NothingOpened(s.history, last, src, now);
    forall i | 0 <= i < |s'.store| ensures Explained(s'.history, i, s'.store[i]) {
      assert i < last ==> Explained(s.history, i, s.store[i]);
    }
  }

  lemma ShakeKeepsHistory(s: State, req: Request, key: Option<seq<Byte>>, src: Addr, now: int, choice: Choice)
    requires HistoryInvariant(s) && Allows(s, req, now, choice)
    ensures HistoryInvariant(Shake(s, req, key, src, now, choice))
  {
    RoomyFrame(s, req, choice);
    SameSessions(s, Forget(s, req, choice));
    SameSessions(s, Roomy(s, req, choice));
    if key.Some? && Picks(s, req, choice) {
      InstallKeepsHistory(Roomy(s, req, choice), req, key.value, src, now, choice);
    }
  }

  lemma NextKeepsHistory(s: State, t: Timed)
    requires TableInvariant(s) && HistoryInvariant(s) && Enabled(s, t)
    ensures HistoryInvariant(Next(s, t))
  {
    match t.action {
      case Datagram(log, wire, src, target) => ReceiveKeepsHistory(s, log, wire, src, t.now, target);
      case HandshakeRequest(req, key, from, choice) => ShakeKeepsHistory(s, req, key, from, t.now, choice);
      case ReapTick => SameSessions(s, Reap(s, t.now));
      case SweepTick => SameSessions(s, Sweep(s, t.now));
      case StopServer => SameSessions(s, Stop(s));
    }
    SameSessions(Act(s, t), Next(s, t));
  }

  /** Over every run: a session's return address is the source of its latest fresh
      authenticated game datagram, or of its handshake before the first one; its allowed
      senders are exactly those who delivered a fresh authenticated packet and that source. */
  lemma {:induction false} SessionsExplained(seed: U64, run: seq<Timed>)
    requires IsRun(seed, run)
    ensures HistoryInvariant(After(seed, run))
    ensures forall i | 0 <= i < |After(seed, run).store| ::
              Explained(After(seed, run).history, i, After(seed, run).store[i])
  {
    if run != [] {
      SessionsExplained(seed, run[..|run| - 1]);
      TableBounded(seed, run[..|run| - 1]);
      NextKeepsHistory(After(seed, run[..|run| - 1]), run[|run| - 1]);
    }
  }

  lemma {:induction false} LatestGameSourceIsASource(h: seq<Event>, i: nat, source: Addr)
    ensures LatestGameSource(h, i, source) in {source} + Sources(h, i)
  {
    if h != [] {
      var before, e := h[..|h| - 1], h[|h| - 1];
      assert h == before + [e];
      ExtendedSets(before, e, i);
      LatestGameSourceIsASource(before, i, source);
    }
  }

  /** The return address is always an allowed sender, so being the return address never
      authorizes anyone else. */
  lemma ReturnIsAllowed(s: State, i: nat)
    requires HistoryInvariant(s) && i < |s.store|
    ensures s.store[i].ret in s.store[i].allowed
  {
    assert Explained(s.history, i, s.store[i]);
    LatestGameSourceIsASource(s.history, i, s.store[i].source);
  }

  lemma ReceiveMovesReturn(s: State, log: SealLog, wire: seq<Byte>, src: Addr, now: int, target: Option<Addr>, i: nat)
    requires i < |s.store| && Receive(s, log, wire, src, now, target).store[i].ret != s.store[i].ret
    ensures var o := Opened(s, log, wire, src, now, target);
            && o.Some? && o.value.ref == i && o.value.src == src && IsGameData(o.value.packet)
            && Receive(s, log, wire, src, now, target).store[i].ret == src
  {
  }

  lemma HousekeepingKeepsReturn(s: State, now: int, i: nat)
    requires i < |s.store|
    ensures Reap(s, now).store[i].ret == s.store[i].ret
    ensures Sweep(s, now).store[i].ret == s.store[i].ret
    ensures Stop(s).store[i].ret == s.store[i].ret
  {
  }

  /** Only fresh authenticated game data of session i moves its return address; replayed
      handshakes, pings and housekeeping never do. */
  lemma ReturnMovesOnlyWithGameData(s: State, t: Timed, i: nat)
    requires Enabled(s, t) && i < |s.store| && i < |Act(s, t).store|
    ensures Act(s, t).store[i].ret == s.store[i].ret
            || (&& t.action.Datagram?
                && Opened(s, t.action.log, t.action.wire, t.action.src, t.now, t.action.target).Some?
                && Opened(s, t.action.log, t.action.wire, t.action.src, t.now, t.action.target).value.ref == i
                && IsGameData(Opened(s, t.action.log, t.action.wire, t.action.src, t.now, t.action.target).value.packet)
                && Act(s, t).store[i].ret == t.action.src)
  {
    match t.action {
      case Datagram(log, wire, src, target) =>
        if Act(s, t).store[i].ret != s.store[i].ret {
          ReceiveMovesReturn(s, log, wire, src, t.now, target, i);
        }
      case HandshakeRequest(req, key, from, choice) => ShakeKeepsReturn(s, req, key, from, t.now, choice, i);
      case ReapTick => HousekeepingKeepsReturn(s, t.now, i);
      case SweepTick => HousekeepingKeepsReturn(s, t.now, i);
      case StopServer => HousekeepingKeepsReturn(s, t.now, i);
    }
  }

  lemma ShakeKeepsReturn(s: State, req: Request, key: Option<seq<Byte>>, src: Addr, now: int, choice: Choice, i: nat)
    requires i < |s.store| && Allows(s, req, now, choice)
    ensures i < |Shake(s, req, key, src, now, choice).store|
    ensures Shake(s, req, key, src, now, choice).store[i].ret == s.store[i].ret
  {
    RoomyFrame(s, req, choice);
    if key.Some? && Picks(s, req, choice) {
      InstallFrame(Roomy(s, req, choice), req, key.value, src, now, choice);
    }
  }

  /** The datagram is one that another session, which now owns the ID it names, would open. */
  ghost predicate AnotherOwns(s: State, log: SealLog, wire: seq<Byte>, i: nat, k: nat)
  {
    && k != i && Present(s, k) && i < |s.store| && s.store[k].sid == s.store[i].sid
    && Authentic(log, s.store[k].key, s.store[k].sid, wire).Some?
  }

  /** Whatever the path and however late, a second copy of a datagram that was opened changes
      nothing at all: nothing is forwarded, and no return path, allowed sender, punch window
      or idle timer moves. The one way out is that the ID was drawn again for another session
      and the same bytes authenticate under that session's own key. */
  lemma SecondCopyIsIgnored(s: State, a: nat, log: SealLog, src: Addr, now: int, target: Option<Addr>)
    requires TableInvariant(s) && HistoryInvariant(s) && a < |s.history|
    ensures
      || Receive(s, log, s.history[a].wire, src, now, target) == s
      || exists k :: AnotherOwns(s, log, s.history[a].wire, s.history[a].ref, k)
  {
    var e := s.history[a];
    assert EventFits(s, e);
    assert Explained(s.history, e.ref, s.store[e.ref]);
    NumberOpened(s.history, e.ref, e.packet.seqNo);
    var o := Opened(s, log, e.wire, src, now, target);
    if o.Some? {
      OpenedEvent(s, log, e.wire, src, now, target);
      assert AnotherOwns(s, log, e.wire, e.ref, o.value.ref);
    }
  }

  // ----- Migration ------------------------------------------------------------------------

  ghost predicate PastOnly(h: seq<Event>, now: int)
  {
    forall a | 0 <= a < |h| :: h[a].time <= now
  }

  lemma {:induction false} EventsArePast(seed: U64, run: seq<Timed>)
    requires IsRun(seed, run)
    ensures PastOnly(After(seed, run).history, After(seed, run).clock)
  {
    if run != [] {
      var s, t := After(seed, run[..|run| - 1]), run[|run| - 1];
      EventsArePast(seed, run[..|run| - 1]);
      TableBounded(seed, run[..|run| - 1]);
      StepIsPast(s, t);
    }
  }

  lemma StepIsPast(s: State, t: Timed)
    requires TableInvariant(s) && PastOnly(s.history, s.clock) && Enabled(s, t)
    ensures PastOnly(Next(s, t).history, t.now)
  {
    match t.action {
      case Datagram(log, wire, src, target) => ReceiveIsPast(s, log, wire, src, t.now, target);
      case HandshakeRequest(req, key, from, choice) => ShakeKeepsEvents(s, req, key, from, t.now, choice);
      case _ =>
    }
  }

  lemma ReceiveIsPast(s: State, log: SealLog, wire: seq<Byte>, src: Addr, now: int, target: Option<Addr>)
    requires TableInvariant(s) && PastOnly(s.history, now)
    ensures PastOnly(Receive(s, log, wire, src, now, target).history, now)
  {
    hide TableInvariant, Authentic, Applied;
    if Opened(s, log, wire, src, now, target).Some? {
      OpenedEvent(s, log, wire, src, now, target);
    }
  }

  lemma ShakeKeepsEvents(s: State, req: Request, key: Option<seq<Byte>>, src: Addr, now: int, choice: Choice)
    ensures Shake(s, req, key, src, now, choice).history == s.history
  {
  }

  /** Event b invited session i's client to move: a PunchInit under 30 s old, after which the
      session opened neither another one nor game data from the endpoint it named. */
  ghost predicate Invites(h: seq<Event>, b: nat, i: nat, now: int)
  {
    && b < |h| && h[b].ref == i && IsPunchInit(h[b]) && now < h[b].time + PUNCH_WINDOW
    && forall a | b < a < |h| && h[a].ref == i ::
         !IsPunchInit(h[a]) && !(IsGameData(h[a].packet) && Some(h[a].src) == h[b].target)
  }

  lemma {:induction false} OpenWindowWasInvited(h: seq<Event>, i: nat, now: int) returns (b: nat)
    requires PastOnly(h, now) && PunchWindow(h, i).0.Some? && now < PunchWindow(h, i).1
    ensures Invites(h, b, i, now) && h[b].target == PunchWindow(h, i).0
  {
    var before, e := h[..|h| - 1], h[|h| - 1];
    if e.ref == i && IsPunchInit(e) {
      b := |h| - 1;
    } else {
      b := OpenWindowWasInvited(before, i, now);
    }
  }

  /** In every run, a packet other than a Ping from a source the session does not allow is
      opened only while an invitation stands. */
  lemma MigrationWasInvited(seed: U64, run: seq<Timed>, log: SealLog, wire: seq<Byte>, src: Addr, now: int,
                            target: Option<Addr>)
    returns (b: nat)
    requires IsRun(seed, run) && After(seed, run).clock <= now
    requires var s := After(seed, run);
             var o := Opened(s, log, wire, src, now, target);
             o.Some? && o.value.packet.cmd != CMD_PING && o.value.ref < |s.store|
             && !Authorized(s.store[o.value.ref], src)
    ensures var s := After(seed, run);
            Invites(s.history, b, Opened(s, log, wire, src, now, target).value.ref, now)
  {
    var s := After(seed, run);
    var e := Opened(s, log, wire, src, now, target).value;
    SessionsExplained(seed, run);
    TableBounded(seed, run);
    EventsArePast(seed, run);
    OpenedEvent(s, log, wire, src, now, target);
    assert Explained(s.history, e.ref, s.store[e.ref]);
    b := OpenWindowWasInvited(s.history, e.ref, now);
  }
}
