/** End to end: clients that seal, a network that drops, duplicates, reorders and injects, and
    the server that dispatches (pkg/client/client.go:733-744, 1347-1364,
    pkg/security/session.go:319-403, pkg/server/server.go:837-971). */
module Delivery {
  import opened Bytes
  import opened Protocol
  import opened SecureSession
  import opened Handshake
  import opened ServerModel
  import opened ServerTable
  import opened SessionHistory
  import Adoption

  /** A client's end of a session: its ID and how many numbers it has used. */
  datatype Link = Link(id: U64, counter: U32)

  /** A packet a client sealed, once, whatever number of paths it then took, and its ciphertext. */
  datatype Sent = Sent(key: seq<Byte>, packet: Packet, box: seq<Byte>)

  /** The primitives and the shared authentication key. */
  datatype Suite = Suite(f: Primitives, authKey: seq<Byte>)

  datatype World = World(
    suite: Suite, server: State, log: SealLog, links: map<seq<Byte>, Link>, sent: seq<Sent>, clients: Adoption.Clients)

  datatype WorldAction =
    | Serve(t: Timed)                                   // any datagram from any source, or housekeeping
    | ClientStep(client: nat, e: Adoption.Step)         // a client sends, answers or resets its handshake
    | ClientSeal(from: seq<Byte>, cmd: Byte, payload: seq<Byte>, timestamp: Int64, box: seq<Byte>)
    | OtherSeal(c: Sealed, plaintext: seq<Byte>)        // anyone, under any other key

  /** The next packet a client seals on its link. */
  function SealedPacket(l: Link, a: WorldAction): Packet
    requires a.ClientSeal? && l.counter < MAX_U32
  {
    Packet(VERSION2, a.cmd, l.id, l.counter + 1, a.timestamp, a.payload)
  }

  predicate IsSessionKey(w: World, key: seq<Byte>)
  {
    exists i :: 0 <= i < |w.server.store| && w.server.store[i].key == key
  }

  /** Key derivation never repeats a traffic key: a new session's key is not in use. */
  ghost predicate Unused(w: World, key: seq<Byte>)
  {
    !IsSessionKey(w, key) && key !in w.links && forall c | c in w.log :: c.key != key
  }

  /** The session a client's step adopts, if any. */
  ghost function Adopted(w: World, c: nat, e: Adoption.Step): Option<Adoption.Joined>
  {
    Adoption.Adopts(w.suite.f, w.suite.authKey, w.clients, c, e)
  }

  /** An adopted session is a new end that starts its numbers from one. */
  ghost function Stepped(w: World, c: nat, e: Adoption.Step): World
  {
    var a := Adopted(w, c, e);
    w.(clients := Adoption.ClientsNext(w.suite.f, w.suite.authKey, w.clients, c, e),
       links := if a.Some? then w.links[a.value.keys.clientKey := Link(a.value.keys.id, 0)] else w.links)
  }

  ghost predicate CanHappen(w: World, a: WorldAction)
  {
    match a
    case Serve(t) =>
      && Enabled(w.server, t)
      && (t.action.Datagram? ==> t.action.log == w.log)
      && (t.action.HandshakeRequest? && t.action.key.Some? ==> Unused(w, t.action.key.value))
    case ClientStep(c, e) =>
      && Adoption.ClientsEnabled(w.suite.f, w.suite.authKey, w.clients, c, e)
      && (Adopted(w, c, e).Some? ==> IsSessionKey(w, Adopted(w, c, e).value.keys.clientKey))
    case ClientSeal(from, cmd, payload, timestamp, box) =>
      && from in w.links && w.links[from].counter < MAX_U32
      && !IsHandshake(SealedPacket(w.links[from], a)) && |box| == |payload| + OVERHEAD <= MAX_PACKET_PAYLOAD
    case OtherSeal(c, plaintext) => !IsSessionKey(w, c.key) && c.key !in w.links
  }

  ghost function Happen(w: World, a: WorldAction): World
  {
    match a
    case Serve(t) => w.(server := Next(w.server, t))
    case ClientStep(c, e) => Stepped(w, c, e)
    case ClientSeal(from, cmd, payload, timestamp, box) =>
      if from in w.links && w.links[from].counter < MAX_U32 then
        Record(w, from, SealedPacket(w.links[from], a), box)
      else w
    case OtherSeal(c, plaintext) => w.(log := w.log[c := plaintext])
  }

  ghost function Record(w: World, from: seq<Byte>, p: Packet, box: seq<Byte>): World
  {
    w.(log := w.log[Claim(from, p.(payload := box)) := p.payload],
       links := w.links[from := Link(p.sessionID, p.seqNo)],
       sent := w.sent + [Sent(from, p, box)])
  }

  ghost function WorldAfter(seed: U64, suite: Suite, run: seq<WorldAction>): World
  {
    if run == [] then World(suite, Initial(seed), map[], map[], [], Adoption.NO_CLIENTS)
    else Happen(WorldAfter(seed, suite, run[..|run| - 1]), run[|run| - 1])
  }

  ghost predicate IsWorldRun(seed: U64, suite: Suite, run: seq<WorldAction>)
  {
    run == [] ||
    (IsWorldRun(seed, suite, run[..|run| - 1]) && CanHappen(WorldAfter(seed, suite, run[..|run| - 1]), run[|run| - 1]))
  }

  // ----- The invariant --------------------------------------------------------------------

  ghost predicate SealedBy(w: World, j: nat, c: Sealed, plaintext: seq<Byte>)
  {
    && j < |w.sent| && w.sent[j].key == c.key
    && c == Claim(c.key, w.sent[j].packet.(payload := w.sent[j].box))
    && |c.box| <= MAX_PACKET_PAYLOAD && w.sent[j].packet.payload == plaintext
  }

  /** Under a session key, the log holds only what the session's client sealed. */
  ghost predicate LogIsSent(w: World)
  {
    forall c | c in w.log && (IsSessionKey(w, c.key) || c.key in w.links) :: WasSealed(w, c)
  }

  ghost predicate WasSealed(w: World, c: Sealed)
    requires c in w.log
  {
    exists j :: SealedBy(w, j, c, w.log[c])
  }

  /** What a client sealed stays in the log as it was sealed. */
  ghost predicate EntriesStay(w: World)
  {
    forall j | 0 <= j < |w.sent| :: EntryStays(w, w.sent[j])
  }

  ghost predicate EntryStays(w: World, sent: Sent)
  {
    var c := Claim(sent.key, sent.packet.(payload := sent.box));
    c in w.log && w.log[c] == sent.packet.payload
  }

  /** A client numbers its packets 1, 2, 3, … */
  ghost predicate SentOnce(w: World)
  {
    && (forall j | 0 <= j < |w.sent| ::
          w.sent[j].key in w.links && w.sent[j].packet.seqNo <= w.links[w.sent[j].key].counter)
    && (forall j, k | 0 <= j < k < |w.sent| && w.sent[j].key == w.sent[k].key ::
          w.sent[j].packet.seqNo != w.sent[k].packet.seqNo)
  }

  ghost predicate KeysDiffer(w: World)
  {
    && (forall i, j | 0 <= i < j < |w.server.store| :: w.server.store[i].key != w.server.store[j].key)
    && (forall key | key in w.links :: IsSessionKey(w, key))
  }

  ghost predicate Delivers(w: World, e: Event, j: nat)
  {
    && j < |w.sent| && e.ref < |w.server.store|
    && w.sent[j].key == w.server.store[e.ref].key && w.sent[j].packet == e.packet
  }

  /** Everything the server ever opened was sealed by that session's client, unchanged. */
  ghost predicate NothingInvented(w: World)
  {
    forall a | 0 <= a < |w.server.history| :: WasSent(w, w.server.history[a])
  }

  ghost predicate WasSent(w: World, e: Event)
  {
    exists j :: Delivers(w, e, j)
  }

  ghost predicate WorldInvariant(w: World)
  {
    && TableInvariant(w.server) && CacheInvariant(w.server) && HistoryInvariant(w.server)
    && LogIsSent(w) && SentOnce(w) && KeysDiffer(w) && NothingInvented(w)
    && Adoption.ClientsInvariant(w.clients) && LinksWereJoined(w) && EntriesStay(w)
  }

  /** A client's end of a session comes from an adoption. */
  ghost predicate LinksWereJoined(w: World)
  {
    forall key | key in w.links :: WasJoined(w, key)
  }

  ghost predicate WasJoined(w: World, key: seq<Byte>)
  {
    exists k :: 0 <= k < |w.clients.joined| && w.clients.joined[k].keys.clientKey == key
  }

  lemma AuthenticWasSent(w: World, i: nat, wire: seq<Byte>, p: Packet) returns (j: nat)
    requires LogIsSent(w) && i < |w.server.store|
    requires Authentic(w.log, w.server.store[i].key, w.server.store[i].sid, wire) == Some(p)
    ensures j < |w.sent| && w.sent[j].key == w.server.store[i].key && w.sent[j].packet == p
  {
    var key := w.server.store[i].key;
    OpensOnlySealed(w.log, key, w.server.store[i].sid, wire, p);
    var box :| var q := p.(payload := box);
               wire == Encode(q) && Claim(key, q) in w.log && w.log[Claim(key, q)] == p.payload;
    var c := Claim(key, p.(payload := box));
    assert WasSealed(w, c) by {
      assert IsSessionKey(w, c.key);
    }
    j :| SealedBy(w, j, c, w.log[c]);
    HeaderBindsFields(p.(payload := box), w.sent[j].packet.(payload := box), |box|, |box|);
    assert p.(payload := box) == w.sent[j].packet.(payload := box);
    assert w.sent[j].packet == p.(payload := box).(payload := p.payload);
  }

  lemma ServeDatagram(w: World, t: Timed)
    requires WorldInvariant(w) && CanHappen(w, Serve(t)) && t.action.Datagram?
    ensures var w' := Happen(w, Serve(t)); LogIsSent(w') && SentOnce(w') && KeysDiffer(w') && NothingInvented(w')
  {
    hide TableInvariant, CacheInvariant, HistoryInvariant, Authentic, Applied, Enabled, LogIsSent, SentOnce,
         KeysDiffer, LinksWereJoined, Adoption.ClientsInvariant;
    var s, s' := w.server, Next(w.server, t);
    var w' := Happen(w, Serve(t));
    ReceiveFrame(s, w.log, t.action.wire, t.action.src, t.now, t.action.target);
    SameKeys(w, w');
    forall a | 0 <= a < |s'.history| ensures WasSent(w', s'.history[a]) {
      if a < |s.history| {
        assert WasSent(w, s.history[a]);
        var j :| Delivers(w, s.history[a], j);
        assert Delivers(w', s'.history[a], j);
      } else {
        var e := Opened(s, w.log, t.action.wire, t.action.src, t.now, t.action.target).value;
        OpenedEvent(s, w.log, t.action.wire, t.action.src, t.now, t.action.target);
        var j := AuthenticWasSent(w, e.ref, t.action.wire, e.packet);
        assert Delivers(w', e, j);
      }
    }
  }

  /** Steps that keep every session's key, the log, the links and what was sent. */
  lemma SameKeys(w: World, w': World)
    requires LogIsSent(w) && SentOnce(w) && KeysDiffer(w)
    requires w'.log == w.log && w'.links == w.links && w'.sent == w.sent
    requires |w'.server.store| == |w.server.store|
    requires forall i | 0 <= i < |w.server.store| :: w'.server.store[i].key == w.server.store[i].key
    ensures LogIsSent(w') && SentOnce(w') && KeysDiffer(w')
  {
    forall key ensures IsSessionKey(w', key) <==> IsSessionKey(w, key) {
      if IsSessionKey(w, key) {
        var i :| 0 <= i < |w.server.store| && w.server.store[i].key == key;
        assert w'.server.store[i].key == key;
      }
    }
    forall c | c in w'.log && (IsSessionKey(w', c.key) || c.key in w'.links)
      ensures WasSealed(w', c)
    {
      assert WasSealed(w, c);
      var j :| SealedBy(w, j, c, w.log[c]);
      assert SealedBy(w', j, c, w'.log[c]);
    }
  }

  lemma SameHistory(w: World, w': World)
    requires NothingInvented(w) && w'.server.history == w.server.history && w.sent <= w'.sent
    requires |w.server.store| <= |w'.server.store|
    requires forall i | 0 <= i < |w.server.store| :: w'.server.store[i].key == w.server.store[i].key
    ensures NothingInvented(w')
  {
    forall a | 0 <= a < |w'.server.history| ensures WasSent(w', w'.server.history[a]) {
      assert WasSent(w, w.server.history[a]);
      var j :| Delivers(w, w.server.history[a], j);
      assert Delivers(w', w'.server.history[a], j);
    }
  }

  /** A handshake either keeps the sessions or adds one with the fresh key. */
  lemma ShakeKeys(s: State, req: Request, key: Option<seq<Byte>>, src: Addr, now: int, choice: Choice)
    requires Allows(s, req, now, choice)
    ensures var s' := Shake(s, req, key, src, now, choice);
            && s'.history == s.history && |s.store| <= |s'.store| <= |s.store| + 1
            && (forall i | 0 <= i < |s.store| :: s'.store[i].key == s.store[i].key)
            && (|s'.store| > |s.store| ==> key == Some(s'.store[|s.store|].key))
  {
    hide Roomy, Resends, Confuses, NewClient;
    RoomyFrame(s, req, choice);
    if key.Some? && Picks(s, req, choice) {
      InstallFrame(Roomy(s, req, choice), req, key.value, src, now, choice);
    }
  }

  lemma NewKey(w: World, w': World, key: seq<Byte>)
    requires LogIsSent(w) && SentOnce(w) && KeysDiffer(w) && Unused(w, key)
    requires w'.log == w.log && w'.links == w.links && w'.sent == w.sent
    requires |w'.server.store| == |w.server.store| + 1 && w'.server.store[|w.server.store|].key == key
    requires forall i | 0 <= i < |w.server.store| :: w'.server.store[i].key == w.server.store[i].key
    ensures LogIsSent(w') && SentOnce(w') && KeysDiffer(w')
  {
    var last := |w.server.store|;
    forall k ensures IsSessionKey(w', k) <==> IsSessionKey(w, k) || k == key {
      if IsSessionKey(w, k) {
        var i :| 0 <= i < last && w.server.store[i].key == k;
        assert w'.server.store[i].key == k;
      }
      if k == key {
        assert w'.server.store[last].key == key;
      }
    }
    forall c | c in w'.log && (IsSessionKey(w', c.key) || c.key in w'.links)
      ensures WasSealed(w', c)
    {
      assert WasSealed(w, c);
      var j :| SealedBy(w, j, c, w.log[c]);
      assert SealedBy(w', j, c, w'.log[c]);
    }
  }

  lemma ServeHandshake(w: World, t: Timed)
    requires LogIsSent(w) && SentOnce(w) && KeysDiffer(w) && NothingInvented(w)
    requires CanHappen(w, Serve(t)) && t.action.HandshakeRequest?
    ensures var w' := Happen(w, Serve(t)); LogIsSent(w') && SentOnce(w') && KeysDiffer(w') && NothingInvented(w')
  {
    var w' := Happen(w, Serve(t));
    ShakeKeys(w.server, t.action.req, t.action.key, t.action.from, t.now, t.action.choice);
    if |w'.server.store| > |w.server.store| {
      NewKey(w, w', t.action.key.value);
    } else {
      SameKeys(w, w');
    }
    SameHistory(w, w');
  }

  lemma ServeHousekeeping(w: World, t: Timed)
    requires LogIsSent(w) && SentOnce(w) && KeysDiffer(w) && NothingInvented(w)
    requires t.action.ReapTick? || t.action.SweepTick? || t.action.StopServer?
    ensures var w' := Happen(w, Serve(t)); LogIsSent(w') && SentOnce(w') && KeysDiffer(w') && NothingInvented(w')
  {
    SameKeys(w, Happen(w, Serve(t)));
    SameHistory(w, Happen(w, Serve(t)));
  }

  lemma RecordKeepsLog(w: World, from: seq<Byte>, p: Packet, box: seq<Byte>)
    requires LogIsSent(w) && from in w.links && |box| <= MAX_PACKET_PAYLOAD
    ensures LogIsSent(Record(w, from, p, box))
  {
    var w' := Record(w, from, p, box);
    forall c | c in w'.log && (IsSessionKey(w', c.key) || c.key in w'.links) ensures WasSealed(w', c) {
      if c == Claim(from, p.(payload := box)) {
        assert SealedBy(w', |w.sent|, c, w'.log[c]);
      } else {
        assert IsSessionKey(w', c.key) ==> IsSessionKey(w, c.key);
        assert WasSealed(w, c);
        var j :| SealedBy(w, j, c, w.log[c]);
        assert SealedBy(w', j, c, w'.log[c]);
      }
    }
  }

  /** A new number makes a new entry. */
  lemma RecordKeepsEntries(w: World, from: seq<Byte>, p: Packet, box: seq<Byte>)
    requires SentOnce(w) && EntriesStay(w) && |box| < 0x1_0000
    requires from in w.links && p.seqNo == w.links[from].counter + 1
    ensures EntriesStay(Record(w, from, p, box))
  {
    var w' := Record(w, from, p, box);
    forall j | 0 <= j < |w'.sent| ensures EntryStays(w', w'.sent[j]) {
      if j < |w.sent| {
        assert EntryStays(w, w.sent[j]);
        ClaimsDiffer(w.sent[j].key, w.sent[j].packet.(payload := w.sent[j].box), from, p.(payload := box));
      }
    }
  }

  lemma ClaimsDiffer(a: seq<Byte>, p: Packet, b: seq<Byte>, q: Packet)
    requires a != b || p.seqNo != q.seqNo
    ensures Claim(a, p) != Claim(b, q)
  {
    if Claim(a, p) == Claim(b, q) {
      NonceIsInjective(p.sessionID, p.seqNo, q.sessionID, q.seqNo);
    }
  }

  lemma RecordKeepsRest(w: World, from: seq<Byte>, p: Packet, box: seq<Byte>)
    requires SentOnce(w) && KeysDiffer(w) && NothingInvented(w)
    requires from in w.links && p.seqNo == w.links[from].counter + 1
    ensures var w' := Record(w, from, p, box); SentOnce(w') && KeysDiffer(w') && NothingInvented(w')
  {
    var w' := Record(w, from, p, box);
    forall key | key in w'.links ensures IsSessionKey(w', key) {
      assert IsSessionKey(w, key);
    }
    SameHistory(w, w');
  }

  lemma ServeKeepsInvariant(w: World, t: Timed)
    requires WorldInvariant(w) && CanHappen(w, Serve(t))
    ensures WorldInvariant(Happen(w, Serve(t)))
  {
    hide Adoption.ClientsInvariant, TableInvariant, CacheInvariant, HistoryInvariant, LogIsSent, SentOnce, KeysDiffer,
         NothingInvented, EntriesStay, LinksWereJoined;
    NextKeepsTable(w.server, t);
    NextKeepsHistory(w.server, t);
    if t.action.Datagram? {
      ServeDatagram(w, t);
    } else if t.action.HandshakeRequest? {
      ServeHandshake(w, t);
    } else {
      ServeHousekeeping(w, t);
    }
    SameLinks(w, Happen(w, Serve(t)));
    SameEntries(w, Happen(w, Serve(t)));
  }

  lemma SameEntries(w: World, w': World)
    requires EntriesStay(w) && w'.log == w.log && w'.sent == w.sent
    ensures EntriesStay(w')
  {
    forall j | 0 <= j < |w'.sent| ensures EntryStays(w', w'.sent[j]) {
      assert EntryStays(w, w.sent[j]);
    }
  }

  lemma SealKeepsInvariant(w: World, a: WorldAction)
    requires WorldInvariant(w) && CanHappen(w, a) && a.ClientSeal?
    ensures WorldInvariant(Happen(w, a))
  {
    hide TableInvariant, CacheInvariant, HistoryInvariant, LogIsSent, SentOnce, KeysDiffer, NothingInvented,
         EntriesStay, LinksWereJoined, Adoption.ClientsInvariant, IsHandshake;
    RecordKeepsLog(w, a.from, SealedPacket(w.links[a.from], a), a.box);
    RecordKeepsRest(w, a.from, SealedPacket(w.links[a.from], a), a.box);
    RecordKeepsEntries(w, a.from, SealedPacket(w.links[a.from], a), a.box);
    assert Happen(w, a).links.Keys == w.links.Keys;
    SameLinks(w, Happen(w, a));
  }

  /** Steps that keep the server and what was sent, and open no session under a new key. */
  lemma KeepsSent(w: World, w': World)
    requires LogIsSent(w) && SentOnce(w) && KeysDiffer(w) && NothingInvented(w)
    requires w'.server == w.server && w'.sent == w.sent
    requires forall key | key in w'.links :: IsSessionKey(w, key)
    requires forall key | key in w.links :: key in w'.links && w'.links[key] == w.links[key]
    requires forall c | c in w'.log && IsSessionKey(w, c.key) :: c in w.log && w'.log[c] == w.log[c]
    ensures LogIsSent(w') && SentOnce(w') && KeysDiffer(w') && NothingInvented(w')
  {
    forall key ensures IsSessionKey(w', key) <==> IsSessionKey(w, key) {
    }
    forall c | c in w'.log && (IsSessionKey(w', c.key) || c.key in w'.links) ensures WasSealed(w', c) {
      assert WasSealed(w, c);
      var j :| SealedBy(w, j, c, w.log[c]);
      assert SealedBy(w', j, c, w'.log[c]);
    }
    SameHistory(w, w');
  }

  /** No request is adopted twice, so the key of an adoption has no numbers yet. */
  lemma AdoptedKeyIsNew(w: World, c: nat, e: Adoption.Step)
    requires Adoption.ClientsInvariant(w.clients) && LinksWereJoined(w)
    requires CanHappen(w, ClientStep(c, e)) && Adopted(w, c, e).Some?
    ensures Adopted(w, c, e).value.keys.clientKey !in w.links
  {
    var key := Adopted(w, c, e).value.keys.clientKey;
    if key in w.links {
      assert WasJoined(w, key);
      var k :| 0 <= k < |w.clients.joined| && w.clients.joined[k].keys.clientKey == key;
      Adoption.AdoptsNew(w.suite.f, w.suite.authKey, w.clients, c, e, k);
      assert false;
    }
  }

  lemma StepKeepsInvariant(w: World, c: nat, e: Adoption.Step)
    requires WorldInvariant(w) && CanHappen(w, ClientStep(c, e))
    ensures WorldInvariant(Happen(w, ClientStep(c, e)))
  {
    hide TableInvariant, CacheInvariant, HistoryInvariant, LogIsSent, SentOnce, NothingInvented,
         Adoption.Adopts, Adoption.ClientsInvariant, Adoption.ClientsEnabled;
    var w' := Happen(w, ClientStep(c, e));
    Adoption.ClientsKept(w.suite.f, w.suite.authKey, w.clients, c, e);
    if Adopted(w, c, e).Some? {
      AdoptedKeyIsNew(w, c, e);
    }
    KeepsSent(w, w');
    forall key | key in w'.links ensures WasJoined(w', key) {
      if key in w.links {
        assert WasJoined(w, key);
        var k :| 0 <= k < |w.clients.joined| && w.clients.joined[k].keys.clientKey == key;
        assert w'.clients.joined[k].keys.clientKey == key;
      } else {
        assert w'.clients.joined[|w.clients.joined|].keys.clientKey == key;
      }
    }
  }

  lemma OtherSealKeepsInvariant(w: World, c: Sealed, plaintext: seq<Byte>)
    requires WorldInvariant(w) && CanHappen(w, OtherSeal(c, plaintext))
    ensures WorldInvariant(Happen(w, OtherSeal(c, plaintext)))
  {
    hide TableInvariant, CacheInvariant, HistoryInvariant, LogIsSent, SentOnce, NothingInvented,
         Adoption.ClientsInvariant;
    KeepsSent(w, Happen(w, OtherSeal(c, plaintext)));
    SameLinks(w, Happen(w, OtherSeal(c, plaintext)));
  }

  lemma SameLinks(w: World, w': World)
    requires LinksWereJoined(w) && w'.clients == w.clients && w'.links.Keys == w.links.Keys
    ensures LinksWereJoined(w')
  {
    forall key | key in w'.links ensures WasJoined(w', key) {
      assert WasJoined(w, key);
    }
  }

  lemma {:induction false} Invariantly(seed: U64, suite: Suite, run: seq<WorldAction>)
    requires IsWorldRun(seed, suite, run)
    ensures WorldInvariant(WorldAfter(seed, suite, run))
  {
    if run != [] {
      var before, a := run[..|run| - 1], run[|run| - 1];
      Invariantly(seed, suite, before);
      HappenKeepsInvariant(WorldAfter(seed, suite, before), a);
    }
  }

  lemma HappenKeepsInvariant(w: World, a: WorldAction)
    requires WorldInvariant(w) && CanHappen(w, a)
    ensures WorldInvariant(Happen(w, a))
  {
    match a {
      case Serve(t) => ServeKeepsInvariant(w, t);
      case ClientStep(c, e) => StepKeepsInvariant(w, c, e);
      case ClientSeal(from, _, _, _, box) => SealKeepsInvariant(w, a);
      case OtherSeal(c, plaintext) => OtherSealKeepsInvariant(w, c, plaintext);
    }
  }

  // ----- The theorems ---------------------------------------------------------------------

  /** What the game server is sent, in order. */
  function Forwarded(h: seq<Event>): (out: seq<Event>)
    ensures forall e | e in out :: e in h && IsGameData(e.packet)
  {
    if h == [] then []
    else Forwarded(h[..|h| - 1]) + if IsGameData(h[|h| - 1].packet) then [h[|h| - 1]] else []
  }

  /** In every run, each packet the server opened is, unchanged, one its session's client
      sealed, and no two openings use the same one: nothing is invented, altered, or
      delivered twice, whatever the network and the two paths of a migration do. */
  lemma OpenedExactlyOnce(seed: U64, suite: Suite, run: seq<WorldAction>)
    returns (w: World, origin: seq<nat>)
    requires IsWorldRun(seed, suite, run)
    ensures w == WorldAfter(seed, suite, run)
    ensures |origin| == |w.server.history|
    ensures forall a | 0 <= a < |origin| :: Delivers(w, w.server.history[a], origin[a])
    ensures forall a, b | 0 <= a < b < |origin| :: origin[a] != origin[b]
  {
    hide TableInvariant, CacheInvariant, HistoryInvariant, LogIsSent, SentOnce, KeysDiffer, Delivers,
         WorldAfter, IsWorldRun;
    w := WorldAfter(seed, suite, run);
    Invariantly(seed, suite, run);
    var h := w.server.history;
    origin := [];
    while |origin| < |h|
      invariant |origin| <= |h|
      invariant forall a | 0 <= a < |origin| :: Delivers(w, h[a], origin[a])
    {
      assert WasSent(w, h[|origin|]);
      var j: nat :| Delivers(w, h[|origin|], j);
      origin := origin + [j];
    }
    forall a, b | 0 <= a < b < |origin| ensures origin[a] != origin[b] {
      DifferentOrigins(w, a, b, origin[a], origin[b]);
    }
  }

  /** In every run, whatever is sealed: two different entries of the log under one client's
      traffic key have different nonces, and each packet sealed has its entry, under the
      nonce of its own session and number. */
  lemma NoncesAreUsedOnce(seed: U64, suite: Suite, run: seq<WorldAction>) returns (w: World)
    requires IsWorldRun(seed, suite, run)
    ensures w == WorldAfter(seed, suite, run)
    ensures forall c, d | c in w.log && d in w.log && c.key == d.key && c.key in w.links && c != d ::
              c.nonce != d.nonce
    ensures forall j | 0 <= j < |w.sent| :: HasEntry(w, w.sent[j])
  {
    hide TableInvariant, CacheInvariant, HistoryInvariant, LogIsSent, SentOnce, KeysDiffer, NothingInvented,
         EntriesStay, LinksWereJoined, Adoption.ClientsInvariant, HasEntry, WorldAfter, IsWorldRun;
    w := WorldAfter(seed, suite, run);
    Invariantly(seed, suite, run);
    forall c, d | c in w.log && d in w.log && c.key == d.key && c.key in w.links && c != d
      ensures c.nonce != d.nonce
    {
      if c.nonce == d.nonce {
        NonceTellsEntry(w, c, d);
      }
    }
    forall j | 0 <= j < |w.sent| ensures HasEntry(w, w.sent[j]) {
      EntryIsThere(w, j);
    }
  }

  /** The log has the ciphertext under the nonce that spells the packet's session and number. */
  ghost predicate HasEntry(w: World, sent: Sent)
  {
    exists e :: && e in w.log && w.log[e] == sent.packet.payload && e.key == sent.key && e.box == sent.box
                && |e.nonce| == 12 && FromBigEndian(e.nonce[..8]) == sent.packet.sessionID
                && FromBigEndian(e.nonce[8..]) == sent.packet.seqNo
  }

  lemma EntryIsThere(w: World, j: nat)
    requires EntriesStay(w) && j < |w.sent|
    ensures HasEntry(w, w.sent[j])
  {
    assert EntryStays(w, w.sent[j]);
    var p := w.sent[j].packet;
    NonceReads(MakeNonce(p.sessionID, p.seqNo), p.sessionID, p.seqNo);
  }

  lemma NonceTellsEntry(w: World, c: Sealed, d: Sealed)
    requires LogIsSent(w) && SentOnce(w)
    requires c in w.log && d in w.log && c.key == d.key && c.key in w.links && c.nonce == d.nonce
    ensures c == d
  {
    hide MakeNonce;
    assert WasSealed(w, c) && WasSealed(w, d);
    var j: nat :| SealedBy(w, j, c, w.log[c]);
    var k: nat :| SealedBy(w, k, d, w.log[d]);
    NonceIsInjective(w.sent[j].packet.sessionID, w.sent[j].packet.seqNo, w.sent[k].packet.sessionID,
                     w.sent[k].packet.seqNo);
  }

  lemma DifferentOrigins(w: World, a: nat, b: nat, i: nat, j: nat)
    requires HistoryInvariant(w.server) && KeysDiffer(w) && a < b < |w.server.history|
    requires Delivers(w, w.server.history[a], i) && Delivers(w, w.server.history[b], j)
    ensures i != j
  {
  }

  lemma {:induction false} ForwardedPositions(h: seq<Event>) returns (at: seq<nat>)
    ensures |at| == |Forwarded(h)|
    ensures forall k | 0 <= k < |at| :: at[k] < |h| && h[at[k]] == Forwarded(h)[k]
    ensures forall k, l | 0 <= k < l < |at| :: at[k] < at[l]
  {
    hide Forwarded, IsGameData;
    ForwardedMore(h);
    if h == [] {
      at := [];
    } else {
      var before := h[..|h| - 1];
      at := ForwardedPositions(before);
      forall k | 0 <= k < |at| ensures at[k] < |h| - 1 && h[at[k]] == Forwarded(before)[k] {
        assert h[at[k]] == before[at[k]];
      }
      if IsGameData(h[|h| - 1].packet) {
        at := at + [|h| - 1];
      }
    }
  }

  lemma ForwardedMore(h: seq<Event>)
    ensures h == [] ==> Forwarded(h) == []
    ensures h != [] ==>
              Forwarded(h) == Forwarded(h[..|h| - 1]) + if IsGameData(h[|h| - 1].packet) then [h[|h| - 1]] else []
  {
  }

  /** The same for what is forwarded upstream: the k-th datagram the game server gets is the
      payload of a distinct game datagram a client sealed. */
  lemma ForwardedExactlyOnce(seed: U64, suite: Suite, run: seq<WorldAction>)
    returns (w: World, origin: seq<nat>)
    requires IsWorldRun(seed, suite, run)
    ensures w == WorldAfter(seed, suite, run)
    ensures |origin| == |Forwarded(w.server.history)|
    ensures forall k | 0 <= k < |origin| ::
              && origin[k] < |w.sent| && IsGameData(w.sent[origin[k]].packet)
              && w.sent[origin[k]].packet.payload == Forwarded(w.server.history)[k].packet.payload
    ensures forall k, l | 0 <= k < l < |origin| :: origin[k] != origin[l]
  {
    var all;
    w, all := OpenedExactlyOnce(seed, suite, run);
    var at := ForwardedPositions(w.server.history);
    origin := seq(|at|, k requires 0 <= k < |at| => all[at[k]]);
    forall k | 0 <= k < |origin|
      ensures origin[k] < |w.sent| && w.sent[origin[k]].packet == Forwarded(w.server.history)[k].packet
    {
      assert Delivers(w, w.server.history[at[k]], all[at[k]]);
    }
  }

  /** Packet j is session k's own, which has the ID of another session's event e and the
      datagram of e. */
  ghost predicate AnotherSealed(w: World, e: Event, k: nat, j: nat)
  {
    && k != e.ref && Present(w.server, k) && w.server.store[k].sid == e.packet.sessionID
    && j < |w.sent| && w.sent[j].key == w.server.store[k].key
    && Authentic(w.log, w.sent[j].key, e.packet.sessionID, e.wire) == Some(w.sent[j].packet)
  }

  lemma OwnerSealed(w: World, a: nat, k: nat) returns (j: nat)
    requires LogIsSent(w) && HistoryInvariant(w.server) && a < |w.server.history|
    requires AnotherOwns(w.server, w.log, w.server.history[a].wire, w.server.history[a].ref, k)
    ensures AnotherSealed(w, w.server.history[a], k, j)
  {
    hide LogIsSent, Authentic, Explained;
    var e, key := w.server.history[a], w.server.store[k].key;
    assert EventFits(w.server, e);
    j := AuthenticWasSent(w, k, e.wire, Authentic(w.log, key, e.packet.sessionID, e.wire).value);
  }

  /** During a migration the client sends one ciphertext on two paths. Once a copy has been
      opened, the other, from any source and any time later, leaves the server as it was,
      unless the bytes are also a packet that the client of another session sealed, which
      drew the same ID since. */
  lemma SecondPathChangesNothing(seed: U64, suite: Suite, run: seq<WorldAction>, w: World, a: nat, t: Timed)
    requires IsWorldRun(seed, suite, run) && w == WorldAfter(seed, suite, run) && a < |w.server.history|
    requires CanHappen(w, Serve(t)) && t.action.Datagram? && t.action.wire == w.server.history[a].wire
    ensures
      || Happen(w, Serve(t)) == w.(server := w.server.(clock := t.now))
      || exists k, j :: AnotherSealed(w, w.server.history[a], k, j)
  {
    hide TableInvariant, CacheInvariant, HistoryInvariant, LogIsSent, SentOnce, KeysDiffer, NothingInvented,
         Receive, AnotherOwns, AnotherSealed;
    Invariantly(seed, suite, run);
    SecondCopyIsIgnored(w.server, a, w.log, t.action.src, t.now, t.action.target);
    if k :| AnotherOwns(w.server, w.log, w.server.history[a].wire, w.server.history[a].ref, k) {
      var j := OwnerSealed(w, a, k);
    }
  }
}
