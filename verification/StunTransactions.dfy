/** The transactions that may accept STUN responses (pkg/stun/stun_client.go:111-151, 205-250). */
module StunTransactions {
  import opened Bytes
  import opened ServerModel
  import opened Stun

  datatype Transaction = Transaction(server: Addr, expires: int)

  /** A binding request that was recorded. */
  datatype Recorded = Recorded(id: seq<Byte>, transaction: Transaction)

  /** A response that was accepted, and the request it used up. */
  datatype Acceptance = Acceptance(request: nat, data: seq<Byte>, source: Addr, time: int, reflected: Addr)

  datatype Ledger = Ledger(
    requests: seq<Recorded>,
    pending: map<seq<Byte>, nat>,   // transaction IDs to requests
    accepted: seq<Acceptance>)

  datatype Action =
    | Record(id: seq<Byte>, server: Addr, now: int, expires: int)
    | WriteFailed(id: seq<Byte>)
    | Receive(data: seq<Byte>, source: Addr, now: int)

  function Pruned(l: Ledger, now: int): Ledger
  {
    l.(pending := map id | id in l.pending
                           && (l.pending[id] < |l.requests| ==> now < l.requests[l.pending[id]].transaction.expires)
                  :: l.pending[id])
  }

  function WithRequest(l: Ledger, id: seq<Byte>, server: Addr, expires: int): Ledger
  {
    l.(requests := l.requests + [Recorded(id, Transaction(server, expires))], pending := l.pending[id := |l.requests|])
  }

  function Forgotten(l: Ledger, id: seq<Byte>): Ledger
  {
    l.(pending := l.pending - {id})
  }

  ghost predicate Answerable(l: Ledger, data: seq<Byte>, source: Addr, now: int, a: Addr)
  {
    && IsBindingResponseShape(data) && data[8..20] in l.pending && l.pending[data[8..20]] < |l.requests|
    && var t := l.requests[l.pending[data[8..20]]].transaction;
       now < t.expires && source == t.server && Reflects(data, data[8..20], a)
  }

  /** A response is used at most once, for the pending request it answers. */
  ghost predicate Accepts(l: Ledger, data: seq<Byte>, source: Addr, now: int, a: Addr, l': Ledger)
    requires IsBindingResponseShape(data)
  {
    && Answerable(l, data, source, now, a)
    && var p, id := Pruned(l, now), data[8..20];
       l' == p.(pending := p.pending - {id}, accepted := l.accepted + [Acceptance(l.pending[id], data, source, now, a)])
  }

  /** The ledger once a response used up its request. */
  function Consumed(p: Ledger, data: seq<Byte>, source: Addr, now: int, a: Addr): Ledger
  {
    if |data| >= 20 && data[8..20] in p.pending then
      p.(pending := p.pending - {data[8..20]},
         accepted := p.accepted + [Acceptance(p.pending[data[8..20]], data, source, now, a)])
    else p
  }

  ghost predicate Steps(l: Ledger, e: Action, l': Ledger)
  {
    match e
    case Record(id, server, now, expires) =>
      id !in Pruned(l, now).pending && l' == WithRequest(Pruned(l, now), id, server, expires)
    case WriteFailed(id) => l' == Forgotten(l, id)
    case Receive(data, source, now) =>
      if IsBindingResponseShape(data) then
        || (exists a :: Accepts(l, data, source, now, a, l'))
        || (l' == Pruned(l, now) && forall a :: !Answerable(l, data, source, now, a))
      else l' == l
  }

  ghost predicate LedgerInvariant(l: Ledger)
  {
    && (forall id | id in l.pending :: l.pending[id] < |l.requests| && l.requests[l.pending[id]].id == id)
    && (forall k | 0 <= k < |l.accepted| ::
          && l.accepted[k].request < |l.requests|
          && Honoured(l.requests[l.accepted[k].request], l.accepted[k])
          && (forall id | id in l.pending :: l.pending[id] != l.accepted[k].request))
    && (forall j, k | 0 <= j < k < |l.accepted| :: l.accepted[j].request != l.accepted[k].request)
  }

  /** The response answers the request: its ID, in time, from the server it was sent to. */
  ghost predicate Honoured(r: Recorded, a: Acceptance)
  {
    && a.source == r.transaction.server && a.time < r.transaction.expires
    && Reflects(a.data, r.id, a.reflected)
  }

  lemma StepKeepsLedger(l: Ledger, e: Action, l': Ledger)
    requires LedgerInvariant(l) && Steps(l, e, l')
    ensures LedgerInvariant(l')
  {
    hide Reflects, IsBindingResponseShape;
  }

  lemma PrunedKeeps(l: Ledger, now: int)
    requires LedgerInvariant(l)
    ensures LedgerInvariant(Pruned(l, now))
    ensures forall id | id in l.pending :: l.pending[id] < |l.requests|
  {
    hide Honoured;
  }

  lemma WithRequestKeeps(l: Ledger, id: seq<Byte>, server: Addr, expires: int)
    requires LedgerInvariant(l) && id !in l.pending
    ensures LedgerInvariant(WithRequest(l, id, server, expires))
    ensures forall j | j in l.pending ::
              WithRequest(l, id, server, expires).requests[l.pending[j]] == l.requests[l.pending[j]]
  {
    hide Honoured;
  }

  /** Over every run: each accepted response used up one request that had not expired, sent to
      the very address the response came from, and no request serves twice. */
  lemma {:induction false} EachRequestServesOnce(states: seq<Ledger>, actions: seq<Action>)
    requires |states| == |actions| + 1 && states[0] == Ledger([], map[], [])
    requires forall k | 0 <= k < |actions| :: Steps(states[k], actions[k], states[k + 1])
    ensures var l := states[|actions|];
            && (forall k | 0 <= k < |l.accepted| ::
                  l.accepted[k].request < |l.requests| && Honoured(l.requests[l.accepted[k].request], l.accepted[k]))
            && (forall j, k | 0 <= j < k < |l.accepted| :: l.accepted[j].request != l.accepted[k].request)
    ensures LedgerInvariant(states[|actions|])
  {
    hide Honoured, Steps;
    if actions != [] {
      var n := |actions| - 1;
      EachRequestServesOnce(states[..n + 1], actions[..n]);
      StepKeepsLedger(states[n], actions[n], states[n + 1]);
    }
  }

  lemma Consume(l: Ledger, data: seq<Byte>, source: Addr, now: int, a: Addr)
    requires LedgerInvariant(l) && IsBindingResponseShape(data) && Answerable(l, data, source, now, a)
    ensures var l' := Consumed(Pruned(l, now), data, source, now, a);
            && Steps(l, Receive(data, source, now), l') && LedgerInvariant(l')
            && l' == Pruned(l, now).(pending := l'.pending, accepted := l'.accepted)
            && l'.pending == Pruned(l, now).pending - {data[8..20]}
  {
    hide Reflects, Honoured, LedgerInvariant;
    var l' := Consumed(Pruned(l, now), data, source, now, a);
    assert Accepts(l, data, source, now, a, l');
    StepKeepsLedger(l, Receive(data, source, now), l');
  }

  lemma PrunedIs(l: Ledger, now: int)
    requires forall id | id in l.pending :: l.pending[id] < |l.requests|
    ensures Pruned(l, now).requests == l.requests
    ensures forall id :: id in Pruned(l, now).pending <==>
              id in l.pending && now < l.requests[l.pending[id]].transaction.expires
    ensures forall id | id in Pruned(l, now).pending :: Pruned(l, now).pending[id] == l.pending[id]
  {
  }

  lemma Refused(l: Ledger, data: seq<Byte>, source: Addr, now: int)
    ensures IsBindingResponseShape(data) ==> |data| >= 20
    ensures !IsBindingResponseShape(data) ==> Steps(l, Receive(data, source, now), l)
    ensures IsBindingResponseShape(data) && (forall a :: !Answerable(l, data, source, now, a)) ==>
              Steps(l, Receive(data, source, now), Pruned(l, now))
  {
  }

  class Validator {
    var pending: map<seq<Byte>, Transaction>
    const ttl: int := TTL
    ghost var ledger: Ledger

    ghost predicate Valid()
      reads this
    {
      && LedgerInvariant(ledger)
      && pending.Keys == ledger.pending.Keys
      && forall id | id in pending :: pending[id] == ledger.requests[ledger.pending[id]].transaction
    }

    constructor ()
      ensures Valid() && ledger == Ledger([], map[], [])
    {
      pending := map[];
      ledger := Ledger([], map[], []);
    }

    method PruneLocked(now: int)
      requires Valid()
      modifies this
      ensures Valid() && ledger == Pruned(old(ledger), now) && pending.Keys <= old(pending).Keys
      ensures pending == map id | id in old(pending) && now < old(pending)[id].expires :: old(pending)[id]
    {
      hide LedgerInvariant;
      DropExpired(now);
      PrunedKeeps(ledger, now);
      ledger := Pruned(ledger, now);
    }

    method DropExpired(now: int)
      modifies `pending
      ensures pending == map id | id in old(pending) && now < old(pending)[id].expires :: old(pending)[id]
    {
      var ids := pending.Keys;
      ghost var before := pending;
      while ids != {}
        invariant ids <= pending.Keys
        invariant pending == map id | id in before && (id in ids || now < before[id].expires) :: before[id]
        decreases |ids|
      {
        var id :| id in ids;
        if now >= pending[id].expires {
          pending := pending - {id};
        }
        ids := ids - {id};
      }
    }

    /** Draws IDs until one is not pending and records the request under it; `draws` is the
        random source, `unused` a draw that is new. */
    method RecordRequest(server: Addr, now: int, draws: nat -> seq<Byte>, ghost unused: nat) returns (id: seq<Byte>)
      requires Valid() && draws(unused) !in pending
      modifies this
      ensures Valid() && id in pending
      ensures id !in Pruned(old(ledger), now).pending
      ensures ledger == WithRequest(Pruned(old(ledger), now), id, server, now + ttl)
      ensures pending[id] == Transaction(server, now + 5_000_000_000)
    {
      hide Pruned, LedgerInvariant;
      ghost var before := ledger;
      PruneLocked(now);
      var k: nat := 0;
      while draws(k) in pending
        invariant k <= unused
        decreases unused - k
      {
        k := k + 1;
      }
      id := draws(k);
      pending := pending[id := Transaction(server, now + ttl)];
      WithRequestKeeps(ledger, id, server, now + ttl);
      ledger := WithRequest(ledger, id, server, now + ttl);
    }

    method Forget(id: seq<Byte>)
      requires Valid()
      modifies this
      ensures Valid() && ledger == Forgotten(old(ledger), id) && pending == old(pending) - {id}
    {
      pending := pending - {id};
      StepKeepsLedger(ledger, WriteFailed(id), Forgotten(ledger, id));
      ledger := Forgotten(ledger, id);
    }

    /** `written` is whether the socket took the datagram. */
    method SendBindingRequest(server: Addr, now: int, draws: nat -> seq<Byte>, ghost unused: nat, written: bool)
      returns (id: Option<seq<Byte>>, ghost drawn: seq<Byte>)
      requires Valid() && draws(unused) !in pending
      modifies this
      ensures Valid() && (id == if written then Some(drawn) else None)
      ensures drawn !in Pruned(old(ledger), now).pending
      ensures var sent := WithRequest(Pruned(old(ledger), now), drawn, server, now + ttl);
              && Steps(old(ledger), Record(drawn, server, now, now + ttl), sent)
              && ledger == if written then sent else Forgotten(sent, drawn)
      // For five seconds.
      ensures written ==> drawn in pending && pending[drawn] == Transaction(server, now + 5_000_000_000)
      ensures !written ==> drawn !in pending
    {
      hide Pruned, LedgerInvariant, WithRequest, Forgotten;
      var recorded := RecordRequest(server, now, draws, unused);
      id, drawn := Some(recorded), recorded;
      if !written {
        Forget(recorded);
        id := None;
      }
    }

    lemma PendingIsRequested()
      requires Valid()
      ensures forall id | id in pending ::
                && id in ledger.pending && ledger.pending[id] < |ledger.requests|
                && pending[id] == ledger.requests[ledger.pending[id]].transaction
    {
    }

    lemma ReflectsShape(data: seq<Byte>)
      ensures |data| >= 20 && (exists a :: Reflects(data, data[8..20], a)) ==> IsBindingResponseShape(data)
    {
      hide Reflects, IsBindingResponseShape;
      if |data| >= 20 {
        forall a | Reflects(data, data[8..20], a) ensures IsBindingResponseShape(data) {
          ReflectsWhen(data, data[8..20], a);
        }
      }
    }

    /** Accepts a response exactly when it is usable, and then uses its request up. */
    method Accept(data: seq<Byte>, source: Addr, now: int) returns (r: Option<Addr>)
      requires Valid()
      modifies this
      ensures Valid() && Steps(old(ledger), Receive(data, source, now), ledger)
      ensures forall a: Addr :: r == Some(a) <==> Answerable(old(ledger), data, source, now, a)
      // Accepted: a pending request with the datagram's ID, sent to its source and not expired.
      ensures forall a: Addr :: r == Some(a)
                <==> && |data| >= 20 && data[8..20] in old(pending)
                     && source == old(pending)[data[8..20]].server && now < old(pending)[data[8..20]].expires
                     && Reflects(data, data[8..20], a)
      ensures r.Some? ==> pending == map id | && id in old(pending) && now < old(pending)[id].expires
                                              && id != data[8..20] :: old(pending)[id]
      ensures r.None? ==> forall id | id in old(pending) && now < old(pending)[id].expires ::
                            id in pending && pending[id] == old(pending)[id]
    {
      hide Reflects, Honoured, LedgerInvariant, IsBindingResponseShape, Steps, Pruned, Consumed;
      ReflectsShape(data);
      Refused(ledger, data, source, now);
      PendingIsRequested();
      r := Take(data, source, now);
      if IsBindingResponseShape(data) {
        ghost var before := ledger;
        PrunedKeeps(before, now);
        ledger := Pruned(before, now);
        PrunedIs(before, now);
        if r.Some? {
          Consume(before, data, source, now, r.value);
          ledger := Consumed(ledger, data, source, now, r.value);
        }
      }
    }

    /** The checks, and what they leave pending. */
    method Take(data: seq<Byte>, source: Addr, now: int) returns (r: Option<Addr>)
      modifies `pending
      ensures forall a: Addr :: r == Some(a)
                <==> && IsBindingResponseShape(data) && data[8..20] in old(pending)
                     && source == old(pending)[data[8..20]].server && now < old(pending)[data[8..20]].expires
                     && Reflects(data, data[8..20], a)
      ensures var live := map id | id in old(pending) && now < old(pending)[id].expires :: old(pending)[id];
              pending == if !IsBindingResponseShape(data) then old(pending)
                         else if r.Some? then live - {data[8..20]} else live
    {
      hide Reflects;
      if !IsBindingResponseShape(data) {
        return None;
      }
      var id := data[8..20];
      DropExpired(now);
      if id !in pending {
        return None;
      }
      var transaction := pending[id];
      if source != transaction.server {
        return None;
      }
      var parsed := ParseBindingResponse(data, Some(id));
      if parsed.Err? {
        return None;
      }
      pending := pending - {id};
      return Some(parsed.value);
    }
  }
}
