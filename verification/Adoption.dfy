/** How the client adopts one session from many handshake responses (pkg/client/client.go:
    1065-1095, 1507-1544, 1897-1917); each handler is one step. */
module Adoption {
  import opened Bytes
  import opened Protocol
  import opened SecureSession
  import opened Handshake

  const PENDING_TTL: int := 90_000_000_000

  /** An adopted session and the request it was adopted for. */
  datatype Adopted = Adopted(keys: SessionKeys, request: nat)

  datatype State = State(
    requests: seq<Pending>,    // every request ever made
    pending: Option<nat>,
    secure: Option<Adopted>,
    accepted: U32,
    seqNo: U32)

  datatype Step =
    | Send(now: Int64, privateKey: seq<Byte>, nonce: seq<Byte>)
    | Respond(p: Packet, now: Int64)
    | Reset

  const INITIAL: State := State([], None, None, 0, 0)

  function Sent(key: seq<Byte>, s: State, now: Int64, privateKey: seq<Byte>, nonce: seq<Byte>): State
  {
    if s.secure.Some? then s
    else if s.pending.Some? && s.pending.value < |s.requests|
            && now - s.requests[s.pending.value].timestamp <= PENDING_TTL then s
    else
      var n: U32 := (s.seqNo + 1) % 0x1_0000_0000;
      if |key| != KEY_SIZE || n == 0 then s.(seqNo := n)
      else s.(seqNo := n, requests := s.requests + [Pending(nonce, privateKey, n, now)], pending := Some(|s.requests|))
  }

  ghost function Responded(f: Primitives, key: seq<Byte>, s: State, p: Packet, now: Int64): State
  {
    if s.pending.None? || s.pending.value >= |s.requests| then s
    else
      var request := s.requests[s.pending.value];
      match Verified(f, key, p, request, now)
      case None => s
      case Some((q, keys)) =>
        if s.secure.Some? && s.accepted == request.seqNo && s.secure.value.keys.id != q.sessionID then s
        else if s.secure.None? || s.secure.value.keys.id != q.sessionID then
          s.(secure := Some(Adopted(keys, s.pending.value)), accepted := request.seqNo)
        else s
  }

  ghost function Next(f: Primitives, key: seq<Byte>, s: State, e: Step): State
  {
    match e
    case Send(now, privateKey, nonce) => Sent(key, s, now, privateKey, nonce)
    case Respond(p, now) => Responded(f, key, s, p, now)
    case Reset => s.(secure := None, accepted := 0, pending := None)
  }

  /** Nonces are random: each request's is new. */
  predicate Enabled(s: State, e: Step)
  {
    e.Send? ==> forall j | 0 <= j < |s.requests| :: s.requests[j].clientNonce != e.nonce
  }

  ghost function After(f: Primitives, key: seq<Byte>, s: State, run: seq<Step>): State
  {
    if run == [] then s else Next(f, key, After(f, key, s, run[..|run| - 1]), run[|run| - 1])
  }

  ghost predicate IsRun(f: Primitives, key: seq<Byte>, s: State, run: seq<Step>)
  {
    run == []
    || (IsRun(f, key, s, run[..|run| - 1]) && Enabled(After(f, key, s, run[..|run| - 1]), run[|run| - 1]))
  }

  /** An adopted session belongs to the pending request, the latest one made. */
  ghost predicate AdoptionInvariant(s: State)
  {
    && (s.pending.Some? ==> s.pending.value + 1 == |s.requests|)
    && (s.secure.Some? ==>
          && s.pending == Some(s.secure.value.request)
          && s.accepted == s.requests[s.secure.value.request].seqNo)
    && (forall i, j | 0 <= i < j < |s.requests| :: s.requests[i].clientNonce != s.requests[j].clientNonce)
  }

  lemma NextKeepsInvariant(f: Primitives, key: seq<Byte>, s: State, e: Step)
    requires AdoptionInvariant(s) && Enabled(s, e)
    ensures AdoptionInvariant(Next(f, key, s, e))
    ensures s.requests <= Next(f, key, s, e).requests
  {
  }

  lemma {:induction false} Invariantly(f: Primitives, key: seq<Byte>, s: State, run: seq<Step>)
    requires AdoptionInvariant(s) && IsRun(f, key, s, run)
    ensures AdoptionInvariant(After(f, key, s, run))
    ensures s.requests <= After(f, key, s, run).requests
  {
    if run != [] {
      Invariantly(f, key, s, run[..|run| - 1]);
      NextKeepsInvariant(f, key, After(f, key, s, run[..|run| - 1]), run[|run| - 1]);
    }
  }

  /** An adopted session, its keys and its request stay until an explicit reset, whatever
      responses arrive: neither other session IDs, nor late or replayed responses replace it. */
  lemma {:induction false} AdoptionLasts(f: Primitives, key: seq<Byte>, s: State, run: seq<Step>)
    requires AdoptionInvariant(s) && s.secure.Some? && IsRun(f, key, s, run) && Reset !in run
    ensures After(f, key, s, run).secure == s.secure && After(f, key, s, run).pending == s.pending
  {
    if run != [] {
      var before := run[..|run| - 1];
      assert run == before + [run[|run| - 1]];
      AdoptionLasts(f, key, s, before);
      Invariantly(f, key, s, before);
    }
  }

  /** After a reset nothing is adopted but for a request made since. */
  lemma {:induction false} OnlyLaterRequests(f: Primitives, key: seq<Byte>, s: State, run: seq<Step>)
    requires AdoptionInvariant(s) && IsRun(f, key, s, [Reset] + run)
    ensures var s' := After(f, key, s, [Reset] + run);
            && |s.requests| <= |s'.requests|
            && (s'.pending.Some? ==> s'.pending.value >= |s.requests|)
            && (s'.secure.Some? ==> s'.secure.value.request >= |s.requests|)
  {
    var all := [Reset] + run;
    if run == [] {
      assert all[..0] == [];
    } else {
      var before := run[..|run| - 1];
      assert all[..|all| - 1] == [Reset] + before;
      OnlyLaterRequests(f, key, s, before);
      Invariantly(f, key, s, [Reset] + before);
    }
  }

  /** And a response the client could have taken for a request made before the reset is
      never adopted again, however late it arrives. */
  lemma StaleResponseIsIgnored(f: Primitives, key: seq<Byte>, s: State, run: seq<Step>, p: Packet, earlier: Int64,
                               now: Int64, j: nat, q: Response)
    requires Laws(f) && AdoptionInvariant(s) && IsRun(f, key, s, [Reset] + run)
    requires j < |s.requests| && Acceptable(f, key, p, s.requests[j], earlier, q)
    ensures var s' := After(f, key, s, [Reset] + run); Next(f, key, s', Respond(p, now)) == s'
  {
    var s' := After(f, key, s, [Reset] + run);
    Invariantly(f, key, s, [Reset] + run);
    OnlyLaterRequests(f, key, s, run);
    AcceptableParses(f, key, p, s.requests[j], earlier);
    assert s'.requests[j] == s.requests[j];
  }

  // ----- Many clients -----------------------------------------------------------------------

  /** One adoption: the client, its request and that request's nonce, and the keys. */
  datatype Joined = Joined(client: nat, request: nat, nonce: seq<Byte>, keys: SessionKeys)

  datatype Clients = Clients(states: map<nat, State>, joined: seq<Joined>)

  const NO_CLIENTS: Clients := Clients(map[], [])

  function StateOf(cs: Clients, c: nat): State
  {
    if c in cs.states then cs.states[c] else INITIAL
  }

  /** The session a step makes client c adopt, if any. */
  ghost function Adopts(f: Primitives, key: seq<Byte>, cs: Clients, c: nat, e: Step): Option<Joined>
  {
    var s, s' := StateOf(cs, c), Next(f, key, StateOf(cs, c), e);
    if s'.secure.Some? && s'.secure != s.secure && s'.secure.value.request < |s'.requests| then
      Some(Joined(c, s'.secure.value.request, s'.requests[s'.secure.value.request].clientNonce, s'.secure.value.keys))
    else None
  }

  ghost function ClientsNext(f: Primitives, key: seq<Byte>, cs: Clients, c: nat, e: Step): Clients
  {
    var a := Adopts(f, key, cs, c, e);
    Clients(cs.states[c := Next(f, key, StateOf(cs, c), e)], if a.Some? then cs.joined + [a.value] else cs.joined)
  }

  /** Nonces are new among all clients, and other nonces derive other traffic keys. */
  ghost predicate ClientsEnabled(f: Primitives, key: seq<Byte>, cs: Clients, c: nat, e: Step)
  {
    && (forall d | d in cs.states :: Enabled(cs.states[d], e))
    && var a := Adopts(f, key, cs, c, e);
       a.Some? ==> forall k | 0 <= k < |cs.joined| && cs.joined[k].nonce != a.value.nonce ::
                     cs.joined[k].keys.clientKey != a.value.keys.clientKey
  }

  ghost predicate Apart(s: State, t: State)
  {
    forall i, j | 0 <= i < |s.requests| && 0 <= j < |t.requests| ::
      s.requests[i].clientNonce != t.requests[j].clientNonce
  }

  /** An adoption is of a request its client made, and no pending request is behind it. */
  ghost predicate JoinedFits(s: State, j: Joined)
  {
    && j.request < |s.requests| && s.requests[j.request].clientNonce == j.nonce
    && (s.pending.Some? ==> if s.secure.Some? then j.request <= s.pending.value else j.request < s.pending.value)
  }

  ghost predicate ClientsInvariant(cs: Clients)
  {
    && (forall c | c in cs.states :: AdoptionInvariant(cs.states[c]))
    && (forall c, d | c in cs.states && d in cs.states && c != d :: Apart(cs.states[c], cs.states[d]))
    && (forall k | 0 <= k < |cs.joined| :: cs.joined[k].client in cs.states)
    && (forall k | 0 <= k < |cs.joined| :: JoinedFits(StateOf(cs, cs.joined[k].client), cs.joined[k]))
    && (forall j, k | 0 <= j < k < |cs.joined| ::
          cs.joined[j].nonce != cs.joined[k].nonce && cs.joined[j].keys.clientKey != cs.joined[k].keys.clientKey)
  }

  /** A step keeps what was adopted behind what is pending. */
  lemma FitsOn(f: Primitives, key: seq<Byte>, s: State, e: Step, j: Joined)
    requires AdoptionInvariant(s) && Enabled(s, e) && JoinedFits(s, j)
    ensures JoinedFits(Next(f, key, s, e), j)
  {
    hide Verified;
  }

  /** A client adopts only when it has no session, and then for its pending request. */
  lemma AdoptsPending(f: Primitives, key: seq<Byte>, cs: Clients, c: nat, e: Step)
    requires AdoptionInvariant(StateOf(cs, c)) && Adopts(f, key, cs, c, e).Some?
    ensures var s, s', a := StateOf(cs, c), Next(f, key, StateOf(cs, c), e), Adopts(f, key, cs, c, e).value;
            && s.secure.None? && s.pending == s'.pending == Some(a.request) && s'.requests == s.requests
            && a.request < |s.requests| && a.nonce == s.requests[a.request].clientNonce && JoinedFits(s', a)
  {
    hide Verified;
  }

  /** So it never adopted that request, nor did anybody else. */
  lemma AdoptsNew(f: Primitives, key: seq<Byte>, cs: Clients, c: nat, e: Step, k: nat)
    requires ClientsInvariant(cs) && Adopts(f, key, cs, c, e).Some? && k < |cs.joined|
    ensures cs.joined[k].nonce != Adopts(f, key, cs, c, e).value.nonce
  {
    var j, a := cs.joined[k], Adopts(f, key, cs, c, e).value;
    InitialHolds();
    AdoptsPending(f, key, cs, c, e);
    assert JoinedFits(StateOf(cs, j.client), j);
    if j.client != c {
      assert c in cs.states ==> Apart(cs.states[j.client], cs.states[c]);
    }
  }

  lemma InitialHolds()
    ensures AdoptionInvariant(INITIAL)
  {
  }

  lemma ApartOn(f: Primitives, key: seq<Byte>, s: State, t: State, e: Step)
    requires Apart(s, t) && Enabled(t, e)
    ensures Apart(Next(f, key, s, e), t) && Apart(t, Next(f, key, s, e))
  {
    hide Verified;
  }

  lemma ClientsKept(f: Primitives, key: seq<Byte>, cs: Clients, c: nat, e: Step)
    requires ClientsInvariant(cs) && ClientsEnabled(f, key, cs, c, e)
    ensures ClientsInvariant(ClientsNext(f, key, cs, c, e))
  {
    hide AdoptionInvariant, Next, JoinedFits, Apart, Enabled;
    var cs', s := ClientsNext(f, key, cs, c, e), StateOf(cs, c);
    InitialHolds();
    assert Enabled(s, e) by {
      NothingToRepeat(e);
    }
    NextKeepsInvariant(f, key, s, e);
    forall d | d in cs.states && d != c
      ensures Apart(cs'.states[c], cs.states[d]) && Apart(cs.states[d], cs'.states[c])
    {
      if c !in cs.states {
        NothingIsApart(cs.states[d]);
      }
      ApartOn(f, key, s, cs.states[d], e);
    }
    forall k | 0 <= k < |cs.joined| ensures JoinedFits(StateOf(cs', cs.joined[k].client), cs.joined[k]) {
      if cs.joined[k].client == c {
        FitsOn(f, key, s, e, cs.joined[k]);
      }
    }
    if Adopts(f, key, cs, c, e).Some? {
      AdoptsPending(f, key, cs, c, e);
      forall k | 0 <= k < |cs.joined| ensures cs.joined[k].nonce != Adopts(f, key, cs, c, e).value.nonce {
        AdoptsNew(f, key, cs, c, e, k);
      }
    }
  }

  lemma NothingToRepeat(e: Step)
    ensures Enabled(INITIAL, e)
  {
  }

  lemma NothingIsApart(t: State)
    ensures Apart(INITIAL, t)
  {
  }

  ghost function ClientsAfter(f: Primitives, key: seq<Byte>, run: seq<(nat, Step)>): Clients
  {
    if run == [] then NO_CLIENTS
    else
      var (c, e) := run[|run| - 1];
      ClientsNext(f, key, ClientsAfter(f, key, run[..|run| - 1]), c, e)
  }

  ghost predicate IsClientsRun(f: Primitives, key: seq<Byte>, run: seq<(nat, Step)>)
  {
    run == []
    || (IsClientsRun(f, key, run[..|run| - 1])
        && ClientsEnabled(f, key, ClientsAfter(f, key, run[..|run| - 1]), run[|run| - 1].0, run[|run| - 1].1))
  }

  /** Over every run of any number of clients no request is adopted twice, and so no traffic key:
      a session adopted again would start its sequence numbers, and its nonces, again at one. */
  lemma {:induction false} NothingIsAdoptedTwice(f: Primitives, key: seq<Byte>, run: seq<(nat, Step)>)
    requires IsClientsRun(f, key, run)
    ensures ClientsInvariant(ClientsAfter(f, key, run))
    ensures var joined := ClientsAfter(f, key, run).joined;
            forall j, k | 0 <= j < k < |joined| ::
              && (joined[j].client, joined[j].request) != (joined[k].client, joined[k].request)
              && joined[j].keys.clientKey != joined[k].keys.clientKey
  {
    if run != [] {
      NothingIsAdoptedTwice(f, key, run[..|run| - 1]);
      ClientsKept(f, key, ClientsAfter(f, key, run[..|run| - 1]), run[|run| - 1].0, run[|run| - 1].1);
    }
    RequestsDiffer(ClientsAfter(f, key, run));
  }

  lemma RequestsDiffer(cs: Clients)
    requires ClientsInvariant(cs)
    ensures forall j, k | 0 <= j < k < |cs.joined| ::
              (cs.joined[j].client, cs.joined[j].request) != (cs.joined[k].client, cs.joined[k].request)
  {
    forall j, k | 0 <= j < k < |cs.joined|
      ensures (cs.joined[j].client, cs.joined[j].request) != (cs.joined[k].client, cs.joined[k].request)
    {
      assert JoinedFits(StateOf(cs, cs.joined[j].client), cs.joined[j]);
      assert JoinedFits(StateOf(cs, cs.joined[k].client), cs.joined[k]);
    }
  }

  // ----- The client -----------------------------------------------------------------------

  /** The datagram carries the authenticated request. */
  ghost predicate WireCarries(f: Primitives, key: seq<Byte>, wire: seq<Byte>, request: Pending)
  {
    exists p :: wire == Encode(p)
                && Carries(f, key, p, Request(request.clientNonce, f.publicKey(request.privateKey), request.seqNo,
                                              request.timestamp))
  }

  /** A session that holds these keys and has neither sent nor received. */
  ghost predicate Unused(s: Session, keys: SessionKeys)
    reads s, s.recv
  {
    && s.Valid() && s.id == keys.id && s.clientKey == keys.clientKey && s.serverKey == keys.serverKey
    && !s.closed && !s.exhausted && s.sendSeq == 0 && s.recv.accepted == {}
  }

  class HandshakeClient {
    const authKey: seq<Byte>
    const f: Primitives
    const aead: Aead
    var pendingHandshake: Option<Pending>
    var handshakeWire: seq<Byte>
    var secureSession: Session?
    var sessionID: U64
    var acceptedHSSeq: U32
    var seqNo: U32
    ghost var model: State

    ghost predicate Valid()
      reads this, secureSession
    {
      && AdoptionInvariant(model)
      && acceptedHSSeq == model.accepted && seqNo == model.seqNo
      && pendingHandshake == (if model.pending.Some? then Some(model.requests[model.pending.value]) else None)
      && (pendingHandshake.Some? ==> WireCarries(f, authKey, handshakeWire, pendingHandshake.value))
      && (secureSession == null <==> model.secure.None?)
      && (secureSession != null ==>
            && !secureSession.closed && secureSession.aead == aead
            && sessionID == secureSession.id == model.secure.value.keys.id
            && secureSession.clientKey == model.secure.value.keys.clientKey
            && secureSession.serverKey == model.secure.value.keys.serverKey)
    }

    constructor (f: Primitives, authKey: seq<Byte>, aead: Aead)
      ensures Valid() && model == INITIAL && this.f == f && this.authKey == authKey
    {
      this.f, this.authKey, this.aead := f, authKey, aead;
      pendingHandshake, handshakeWire, secureSession, sessionID, acceptedHSSeq, seqNo := None, [], null, 0, 0, 0;
      model := INITIAL;
    }

    /** Returns the request to send; None when an authenticated Ping goes out instead, or no
        request can be made. */
    method SendHandshake(now: Int64, privateKey: seq<Byte>, nonce: seq<Byte>) returns (wire: Option<seq<Byte>>)
      requires Valid() && Laws(f) && |nonce| == NONCE_SIZE && Enabled(model, Send(now, privateKey, nonce))
      modifies this
      ensures Valid() && secureSession == old(secureSession)
      ensures model == Next(f, authKey, old(model), Send(now, privateKey, nonce))
      ensures wire.Some? ==> pendingHandshake.Some? && WireCarries(f, authKey, wire.value, pendingHandshake.value)
      // With a session, nothing; with a request of 90 s at most, that one again; else a new one.
      ensures if secureSession != null then wire == None && pendingHandshake == old(pendingHandshake)
              else if old(pendingHandshake).Some? && now - old(pendingHandshake).value.timestamp <= 90_000_000_000 then
                wire == Some(old(handshakeWire)) && pendingHandshake == old(pendingHandshake)
              else
                && seqNo == (old(seqNo) + 1) % 0x1_0000_0000
                && (wire.Some? <==> |authKey| == 32 && seqNo != 0)
                && pendingHandshake == if wire.Some? then Some(Pending(nonce, privateKey, seqNo, now))
                                       else old(pendingHandshake)
    {
      hide FromBigEndian, ToUnsigned, Encode, Carries;
      wire := None;
      NextKeepsInvariant(f, authKey, model, Send(now, privateKey, nonce));
      if secureSession != null && !secureSession.closed {
        return;
      }
      if pendingHandshake.None? || now - pendingHandshake.value.timestamp > PENDING_TTL {
        model := Next(f, authKey, model, Send(now, privateKey, nonce));
        seqNo := (seqNo + 1) % 0x1_0000_0000;
        var request := NewHandshakeRequest(f, authKey, seqNo, privateKey, nonce, now);
        if request.Err? {
          return;
        }
        pendingHandshake := Some(request.value.1);
        var marshaled := Marshal(request.value.0);
        handshakeWire := marshaled[..];
      }
      wire := Some(handshakeWire);
    }

    method HandleHandshakeResponse(p: Packet, now: Int64)
      requires Valid() && Laws(f)
      modifies this, secureSession
      ensures Valid()
      ensures model == Next(f, authKey, old(model), Respond(p, now))
      ensures old(secureSession) != null ==> secureSession == old(secureSession)
      ensures pendingHandshake == old(pendingHandshake) && handshakeWire == old(handshakeWire) && seqNo == old(seqNo)
      // Without a session, a verified response makes one, with its ID and both keys.
      ensures old(secureSession) == null ==>
                if pendingHandshake.Some? && Verified(f, authKey, p, pendingHandshake.value, now).Some? then
                  var (q, keys) := Verified(f, authKey, p, pendingHandshake.value, now).value;
                  && secureSession != null && fresh(secureSession) && fresh(secureSession.recv)
                  && Unused(secureSession, keys) && sessionID == q.sessionID
                else secureSession == null
    {
      hide WireCarries, Acceptable, ParsedResponse, Derive, Laws;
      NextKeepsInvariant(f, authKey, model, Respond(p, now));
      if pendingHandshake.None? {
        return;
      }
      var pending := pendingHandshake.value;
      var verified := VerifyHandshakeResponse(f, authKey, p, pending, now);
      VerifiedBy(f, authKey, p, pending, now, verified);
      if verified.Err? {
        return;
      }
      var response, keys := verified.value.0, verified.value.1;
      var session := new Session(keys.id, aead, keys.clientKey, keys.serverKey);
      var current := secureSession;
      if current != null && acceptedHSSeq == pending.seqNo && current.id != response.sessionID {
        session.Close();
        return;
      }
      if current == null || current.id != response.sessionID {
        secureSession := session;
        sessionID := response.sessionID;
        acceptedHSSeq := pending.seqNo;
        model := Next(f, authKey, model, Respond(p, now));
        // Handlers being atomic, the source's close of a session replaced here has no case.
        assert current == null;
      } else {
        session.Close();
      }
    }

    method ResetSecureSessionForReconnect()
      requires Valid()
      modifies this, secureSession
      ensures Valid() && secureSession == null && sessionID == 0 && pendingHandshake == None && handshakeWire == []
      ensures old(secureSession) != null ==> old(secureSession).closed
      ensures model == Next(f, authKey, old(model), Reset)
    {
      if secureSession != null {
        secureSession.Close();
        secureSession := null;
      }
      sessionID := 0;
      acceptedHSSeq := 0;
      pendingHandshake := None;
      handshakeWire := [];
      model := Next(f, authKey, model, Reset);
    }
  }
}
