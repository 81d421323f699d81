/** Switching to relay-only while punch candidates are created, retired and selected and game
    data is sent (pkg/client/client.go:605-649, 960-1008, 1352-1364, 2329-2369). The mode is
    stored without the candidate lock, so a section that holds the lock can see it change. */
module SetModeRace {
  import opened Bytes
  import opened RouteSelect

  datatype Info = Info(isPunch: bool, path: Path, retired: bool)

  datatype Pc =
    | Idle
    | Stored(mode: Mode)                         // SetMode stored the mode
    | Retiring(rest: seq<nat>)                   // candidates still to retire
    | Removing(c: nat, rest: seq<nat>)           // marked c retired, about to unlist it
    | Reselect(rest: seq<nat>, last: bool)       // about to select, finally or after a removal
    | Selecting(rest: seq<nat>, last: bool, seen: set<Mode>)  // inside the lock; modes it could have read
    | Appending(c: nat)                          // addPunchCandidate inside the lock, past its mode check
    | Returned
    | Snapped(data: nat, a: Option<nat>, p: Option<nat>)
    | SendingActive(data: nat, active: nat, p: Option<nat>, check: Check)
    | CheckingPrev(data: nat, active: nat, p: Option<nat>)
    | SendingPrev(data: nat, active: nat, second: nat, check: Check)

  /** The check before a send: whether it found a relay candidate, and how many mode stores and
      path hints there had been by then. */
  datatype Check = Check(relay: bool, stores: nat, hints: nat)

  /** A path hint and the candidate it classified. */
  datatype Told = Told(c: nat, path: Path)

  /** One send of datagram number `data`: its check, the hints since, and, at the send, the mode
      and whether the target was a relay. */
  datatype Dispatch = Dispatch(
    data: nat, to: nat, copy: bool, check: Check, since: seq<Told>, mode: Mode, stores: nat, relay: bool)

  datatype State = State(
    enableLAN: bool,
    mode: Mode,
    stores: nat,               // mode stores so far
    storer: Option<nat>,       // the thread of the latest one
    lock: Option<nat>,
    list: seq<nat>,
    info: map<nat, Info>,
    best: Option<nat>,
    prev: Option<nat>,
    pcs: map<nat, Pc>,
    numbered: nat,             // datagrams read so far
    hints: seq<Told>,          // every path hint, in order
    sent: seq<Dispatch>)

  datatype Step =
    | StoreMode(t: nat, mode: Mode)
    | Collect(t: nat)
    | RetireNext(t: nat)
    | Unlist(t: nat)
    | LockToSelect(t: nat)
    | FinishSelect(t: nat, best: Option<nat>, prev: Option<nat>)
    | BeginSelect(t: nat)
    | BeginRetire(t: nat, c: nat)
    | BeginAdd(t: nat, c: nat)
    | Append(t: nat)
    | AddPlain(c: nat)
    | Hint(c: nat, path: Path)
    | Snapshot(t: nat)
    | CheckActive(t: nat)
    | SendActive(t: nat)
    | CheckPrev(t: nat, dual: bool)
    | SendPrev(t: nat)

  function At(s: State, t: nat): Pc
  {
    if t in s.pcs then s.pcs[t] else Idle
  }

  predicate Sendable(s: State, mode: Mode, c: nat)
  {
    c in s.info && Allowed(mode, s.enableLAN, s.info[c].isPunch, s.info[c].path)
  }

  predicate IsRelay(s: State, c: nat)
  {
    c in s.info && !s.info[c].isPunch && s.info[c].path == Relay
  }

  /** A selection may settle on any listed candidate some mode it saw allows. */
  predicate Selectable(s: State, seen: set<Mode>, c: Option<nat>)
  {
    c.Some? ==> c.value in s.list && exists m :: m in seen && Sendable(s, m, c.value)
  }

  predicate Enabled(s: State, e: Step)
  {
    match e
    case StoreMode(t, _) => At(s, t) == Idle
    case Collect(t) => At(s, t).Stored? && s.lock == None
    case RetireNext(t) => At(s, t).Retiring?
    case Unlist(t) => At(s, t).Removing? && s.lock == None
    case LockToSelect(t) => At(s, t).Reselect? && s.lock == None
    case FinishSelect(t, best, prev) =>
      && At(s, t).Selecting? && Selectable(s, At(s, t).seen, best)
      && (prev == s.prev || Selectable(s, At(s, t).seen, prev))
    case BeginSelect(t) => At(s, t) == Idle
    case BeginRetire(t, c) => At(s, t) == Idle && c in s.info
    case BeginAdd(t, c) => At(s, t) == Idle && c !in s.info && s.lock == None
    case Append(t) => At(s, t).Appending? && At(s, t).c !in s.info
    case AddPlain(c) => c !in s.info && s.lock == None
    case Hint(c, path) => c in s.info
    case Snapshot(t) => At(s, t) == Idle && s.lock == None
    case CheckActive(t) => At(s, t).Snapped?
    case SendActive(t) => At(s, t).SendingActive?
    case CheckPrev(t, _) => At(s, t).CheckingPrev?
    case SendPrev(t) => At(s, t).SendingPrev?
  }

  function Put(s: State, t: nat, pc: Pc): State
  {
    s.(pcs := s.pcs[t := pc])
  }

  /** Sections inside the lock may read a mode stored meanwhile. */
  function SeesStore(pc: Pc, mode: Mode): Pc
  {
    if pc.Selecting? then pc.(seen := pc.seen + {mode}) else pc
  }

  function PunchesOf(list: seq<nat>, info: map<nat, Info>): seq<nat>
  {
    if list == [] then []
    else if list[0] in info && info[list[0]].isPunch then [list[0]] + PunchesOf(list[1..], info)
    else PunchesOf(list[1..], info)
  }

  function Minus(list: seq<nat>, c: nat): seq<nat>
  {
    if list == [] then [] else if list[0] == c then list[1..] else [list[0]] + Minus(list[1..], c)
  }

  function Cleared(o: Option<nat>, c: nat): Option<nat>
  {
    if o == Some(c) then None else o
  }

  function CheckOf(s: State, c: nat): Check
  {
    Check(IsRelay(s, c), s.stores, |s.hints|)
  }

  /** A thread that has checked a candidate and not yet sent. */
  predicate Sending(pc: Pc)
  {
    pc.SendingActive? || pc.SendingPrev?
  }

  function Target(pc: Pc): nat
    requires Sending(pc)
  {
    if pc.SendingActive? then pc.active else pc.second
  }

  /** What such a thread sends now. */
  function DispatchOf(s: State, pc: Pc): Dispatch
    requires Sending(pc)
  {
    var since := if pc.check.hints <= |s.hints| then s.hints[pc.check.hints..] else [];
    Dispatch(pc.data, Target(pc), pc.SendingPrev?, pc.check, since, s.mode, s.stores, IsRelay(s, Target(pc)))
  }

  function Next(s: State, e: Step): State
    requires Enabled(s, e)
  {
    match e
    case StoreMode(t, mode) =>
      s.(mode := mode, stores := s.stores + 1, storer := Some(t),
         pcs := (map u | u in s.pcs :: SeesStore(s.pcs[u], mode))[t := Stored(mode)])
    case Collect(t) =>
      if At(s, t).mode == RelayOnly then
        Put(s, t, Retiring(PunchesOf(s.list, s.info))).(
          best := if s.best.Some? && Sendable(s, s.mode, s.best.value) then s.best else None, prev := None)
      else Put(s, t, Reselect([], true))
    case RetireNext(t) =>
      var rest := At(s, t).rest;
      if rest == [] then Put(s, t, Reselect([], true))
      else if rest[0] in s.info && !s.info[rest[0]].retired then
        Put(s, t, Removing(rest[0], rest[1..])).(info := s.info[rest[0] := s.info[rest[0]].(retired := true)])
      else Put(s, t, Retiring(rest[1..]))
    case Unlist(t) =>
      var c := At(s, t).c;
      Put(s, t, Reselect(At(s, t).rest, false)).(list := Minus(s.list, c), best := Cleared(s.best, c),
                                                 prev := Cleared(s.prev, c))
    case LockToSelect(t) => Put(s, t, Selecting(At(s, t).rest, At(s, t).last, {s.mode})).(lock := Some(t))
    case FinishSelect(t, best, prev) =>
      Put(s, t, if At(s, t).last then Returned else Retiring(At(s, t).rest)).(best := best, prev := prev, lock := None)
    case BeginSelect(t) => Put(s, t, Reselect([], true))
    case BeginRetire(t, c) => Put(s, t, Retiring([c]))
    case BeginAdd(t, c) =>
      if s.mode == RelayOnly then Put(s, t, Returned) else Put(s, t, Appending(c)).(lock := Some(t))
    case Append(t) =>
      var c := At(s, t).c;
      Put(s, t, Returned).(list := s.list + [c], info := s.info[c := Info(true, Punch, false)], lock := None)
    case AddPlain(c) => s.(list := s.list + [c], info := s.info[c := Info(false, Unknown, false)])
    case Hint(c, path) =>
      var told := if s.info[c].isPunch then Punch else path;
      s.(info := s.info[c := s.info[c].(path := told)], hints := s.hints + [Told(c, told)])
    case Snapshot(t) => Put(s, t, Snapped(s.numbered, s.best, s.prev)).(numbered := s.numbered + 1)
    case CheckActive(t) =>
      var pc := At(s, t);
      if pc.a.Some? && Sendable(s, s.mode, pc.a.value) then
        Put(s, t, SendingActive(pc.data, pc.a.value, pc.p, CheckOf(s, pc.a.value)))
      else Put(s, t, Idle)
    case SendActive(t) =>
      var pc := At(s, t);
      Put(s, t, CheckingPrev(pc.data, pc.active, pc.p)).(sent := s.sent + [DispatchOf(s, pc)])
    case CheckPrev(t, dual) =>
      var pc := At(s, t);
      if pc.p.Some? && pc.p.value != pc.active && Sendable(s, s.mode, pc.p.value) && dual then
        Put(s, t, SendingPrev(pc.data, pc.active, pc.p.value, CheckOf(s, pc.p.value)))
      else Put(s, t, Idle)
    case SendPrev(t) =>
      var pc := At(s, t);
      Put(s, t, Idle).(sent := s.sent + [DispatchOf(s, pc)])
  }

  function Initial(mode: Mode, enableLAN: bool): State
  {
    State(enableLAN, mode, 0, None, None, [], map[], None, None, map[], 0, [], [])
  }

  function After(start: State, run: seq<Step>): State
  {
    if run == [] then start
    else
      var s := After(start, run[..|run| - 1]);
      if Enabled(s, run[|run| - 1]) then Next(s, run[|run| - 1]) else s
  }

  // ----- Retirement -----------------------------------------------------------------------

  /** What the thread of the latest mode store still has to retire; None before it looked. */
  function ToRetire(pc: Pc): Option<seq<nat>>
  {
    match pc
    case Retiring(rest) => Some(rest)
    case Removing(_, rest) => Some(rest)
    case Reselect(rest, _) => Some(rest)
    case Selecting(rest, _, _) => Some(rest)
    case Returned => Some([])
    case _ => None
  }

  /** Nobody is past the mode check of addPunchCandidate, and each listed punch candidate is
      retired or about to be. */
  ghost predicate Swept(s: State, rest: seq<nat>)
  {
    && (forall u: nat :: !At(s, u).Appending?)
    && (forall c | c in s.list && c in s.info && s.info[c].isPunch :: s.info[c].retired || c in rest)
  }

  ghost predicate LockHeld(s: State)
  {
    forall u: nat | At(s, u).Appending? || At(s, u).Selecting? :: s.lock == Some(u)
  }

  ghost predicate LastIsDone(s: State)
  {
    forall u: nat | (At(s, u).Reselect? || At(s, u).Selecting?) && At(s, u).last :: At(s, u).rest == []
  }

  /** The thread of the latest mode store is in SetMode or has returned from it. */
  ghost predicate StorerRuns(s: State)
  {
    s.storer.Some? ==>
      && var pc := At(s, s.storer.value);
         || pc == Stored(s.mode)
         || (ToRetire(pc).Some? && (s.mode == RelayOnly ==> Swept(s, ToRetire(pc).value)))
  }

  ghost predicate RaceInvariant(s: State)
  {
    LockHeld(s) && LastIsDone(s) && StorerRuns(s) && forall c | c in s.list :: c in s.info
  }

  lemma {:induction false} PunchesOfAll(list: seq<nat>, info: map<nat, Info>)
    ensures forall c | c in list && c in info && info[c].isPunch :: c in PunchesOf(list, info)
  {
    if list != [] {
      PunchesOfAll(list[1..], info);
    }
  }

  lemma {:induction false} MinusShrinks(list: seq<nat>, c: nat)
    ensures forall x | x in Minus(list, c) :: x in list
  {
    if list != [] {
      MinusShrinks(list[1..], c);
    }
  }

  /** The thread a step belongs to. */
  function Actor(e: Step): Option<nat>
  {
    if e.AddPlain? || e.Hint? then None else Some(e.t)
  }

  lemma OthersStay(s: State, e: Step, u: nat)
    requires Enabled(s, e) && Actor(e) != Some(u)
    ensures At(Next(s, e), u) == if e.StoreMode? then SeesStore(At(s, u), e.mode) else At(s, u)
  {
    hide Sendable, Selectable, PunchesOf, Minus;
  }

  lemma LockKept(s: State, e: Step, u: nat)
    requires LockHeld(s) && Enabled(s, e)
    ensures At(Next(s, e), u).Appending? || At(Next(s, e), u).Selecting? ==> Next(s, e).lock == Some(u)
  {
    if Actor(e) != Some(u) {
      OthersStay(s, e, u);
    }
  }

  lemma LastKept(s: State, e: Step, u: nat)
    requires LastIsDone(s) && Enabled(s, e)
    ensures var pc := At(Next(s, e), u); (pc.Reselect? || pc.Selecting?) && pc.last ==> pc.rest == []
  {
    if Actor(e) != Some(u) {
      OthersStay(s, e, u);
    }
  }

  lemma NothingToAppend(s: State, e: Step)
    requires Enabled(s, e) && forall u: nat :: !At(s, u).Appending?
    ensures !e.Append?
  {
  }

  /** A step of another thread, once the sweep began. */
  lemma SweptByOthers(s: State, e: Step, rest: seq<nat>)
    requires Swept(s, rest) && s.mode == RelayOnly && Enabled(s, e) && !e.StoreMode?
    ensures Swept(Next(s, e), rest)
  {
    var s' := Next(s, e);
    NothingToAppend(s, e);
    forall u: nat ensures !At(s', u).Appending? {
      if Actor(e) != Some(u) {
        OthersStay(s, e, u);
      }
    }
    forall c | c in s'.list && c in s'.info && s'.info[c].isPunch ensures s'.info[c].retired || c in rest {
      if e.Unlist? {
        MinusShrinks(s.list, At(s, e.t).c);
      }
    }
  }

  lemma CollectSweeps(s: State, t: nat)
    requires LockHeld(s) && Enabled(s, Collect(t)) && At(s, t).mode == RelayOnly
    ensures Swept(Next(s, Collect(t)), PunchesOf(s.list, s.info))
  {
    PunchesOfAll(s.list, s.info);
    forall u: nat ensures !At(Next(s, Collect(t)), u).Appending? {
      if u != t {
        OthersStay(s, Collect(t), u);
      }
    }
  }

  /** The storer's own next step. */
  lemma StorerSteps(s: State, e: Step)
    requires RaceInvariant(s) && Enabled(s, e) && !e.StoreMode? && s.storer.Some? && Actor(e) == s.storer
    ensures StorerRuns(Next(s, e))
  {
    hide Swept, LockHeld, LastIsDone, Sendable, Selectable;
    var t := s.storer.value;
    if s.mode == RelayOnly {
      if e.Collect? {
        CollectSweeps(s, t);
      } else if e.RetireNext? {
        OneRetired(s, t);
      } else {
        SweptByOthers(s, e, ToRetire(At(s, t)).value);
        if e.FinishSelect? && At(s, t).last {
          LastWasDone(s, t);
        }
      }
    }
  }

  lemma LastWasDone(s: State, t: nat)
    requires LastIsDone(s) && At(s, t).Selecting? && At(s, t).last
    ensures At(s, t).rest == []
  {
  }

  lemma StorerKept(s: State, e: Step)
    requires RaceInvariant(s) && Enabled(s, e) && !e.StoreMode? && s.storer.Some?
    ensures StorerRuns(Next(s, e))
  {
    hide Swept, LockHeld, LastIsDone;
    var t := s.storer.value;
    if Actor(e) == Some(t) {
      StorerSteps(s, e);
    } else {
      OthersStay(s, e, t);
      if s.mode == RelayOnly && ToRetire(At(s, t)).Some? {
        SweptByOthers(s, e, ToRetire(At(s, t)).value);
      }
    }
  }

  /** Retiring the next candidate takes it off what is left. */
  lemma OneRetired(s: State, t: nat)
    requires At(s, t).Retiring? && Swept(s, At(s, t).rest)
    ensures var s' := Next(s, RetireNext(t)); ToRetire(At(s', t)).Some? && Swept(s', ToRetire(At(s', t)).value)
  {
    var s' := Next(s, RetireNext(t));
    forall u: nat ensures !At(s', u).Appending? {
      if u != t {
        OthersStay(s, RetireNext(t), u);
      }
    }
    var rest := At(s, t).rest;
    forall c | c in s'.list && c in s'.info && s'.info[c].isPunch && !s'.info[c].retired
      ensures c in ToRetire(At(s', t)).value
    {
      assert c in rest && c != rest[0];
    }
  }

  lemma NextKeepsRace(s: State, e: Step)
    requires RaceInvariant(s) && Enabled(s, e)
    ensures RaceInvariant(Next(s, e))
  {
    hide Next, Enabled, Swept;
    forall u: nat
      ensures var pc := At(Next(s, e), u);
              && (pc.Appending? || pc.Selecting? ==> Next(s, e).lock == Some(u))
              && ((pc.Reselect? || pc.Selecting?) && pc.last ==> pc.rest == [])
    {
      LockKept(s, e, u);
      LastKept(s, e, u);
    }
    InfoKept(s, e);
    if !e.StoreMode? && s.storer.Some? {
      StorerKept(s, e);
    } else {
      StorerStarts(s, e);
    }
  }

  lemma StorerStarts(s: State, e: Step)
    requires Enabled(s, e) && (e.StoreMode? || s.storer.None?)
    ensures StorerRuns(Next(s, e))
  {
    hide Swept;
  }

  lemma InfoKept(s: State, e: Step)
    requires Enabled(s, e) && forall c | c in s.list :: c in s.info
    ensures forall c | c in Next(s, e).list :: c in Next(s, e).info
  {
    if e.Unlist? {
      MinusShrinks(s.list, At(s, e.t).c);
    }
  }

  lemma {:induction false} RaceHolds(mode: Mode, enableLAN: bool, run: seq<Step>)
    ensures RaceInvariant(After(Initial(mode, enableLAN), run))
  {
    if run != [] {
      var before, e := run[..|run| - 1], run[|run| - 1];
      RaceHolds(mode, enableLAN, before);
      if Enabled(After(Initial(mode, enableLAN), before), e) {
        NextKeepsRace(After(Initial(mode, enableLAN), before), e);
      }
    }
  }

  /** Once SetMode("relay-only") has returned, and until the mode is stored again, every punch
      candidate still listed is retired, whatever the other threads do. */
  lemma EveryPunchRetired(mode: Mode, enableLAN: bool, run: seq<Step>)
    requires var s := After(Initial(mode, enableLAN), run);
             s.mode == RelayOnly && s.storer.Some? && At(s, s.storer.value) == Returned
    ensures var s := After(Initial(mode, enableLAN), run);
            forall c | c in s.list :: c in s.info && (s.info[c].isPunch ==> s.info[c].retired)
  {
    RaceHolds(mode, enableLAN, run);
  }

  // ----- Sending --------------------------------------------------------------------------

  /** The latest of some hints for a candidate. */
  function LastTold(hints: seq<Told>, c: nat): Option<Path>
  {
    if hints == [] then None
    else if hints[|hints| - 1].c == c then Some(hints[|hints| - 1].path)
    else LastTold(hints[..|hints| - 1], c)
  }

  /** The latest hint since its check took the candidate off Relay. */
  predicate LeftRelay(since: seq<Told>, c: nat)
  {
    LastTold(since, c).Some? && LastTold(since, c) != Some(Relay)
  }

  /** The latest hint since the check says Relay, or there was none and the check found a relay. */
  predicate RelayBy(check: Check, since: seq<Told>, c: nat)
  {
    LastTold(since, c) == Some(Relay) || (LastTold(since, c).None? && check.relay)
  }

  /** A check made since the mode became relay-only found a relay. */
  predicate CheckHolds(s: State, check: Check)
  {
    && check.stores <= s.stores && check.hints <= |s.hints|
    && (check.stores == s.stores && s.mode == RelayOnly ==> check.relay)
  }

  /** What a sending thread's check and the hints since say about its target. */
  ghost predicate SenderKnows(s: State, pc: Pc)
  {
    && (Sending(pc) ==>
          && CheckHolds(s, pc.check) && Target(pc) in s.info
          && (IsRelay(s, Target(pc)) <==> RelayBy(pc.check, s.hints[pc.check.hints..], Target(pc))))
    && (pc.SendingPrev? ==> pc.second != pc.active)
  }

  predicate Sends(pc: Pc)
  {
    pc.Snapped? || pc.SendingActive? || pc.CheckingPrev? || pc.SendingPrev?
  }

  /** Its datagram is its own, and was sent so far only to the active candidate. */
  ghost predicate SenderOwns(s: State, pc: Pc)
  {
    Sends(pc) ==>
      && pc.data < s.numbered
      && forall k | 0 <= k < |s.sent| && s.sent[k].data == pc.data ::
           (pc.CheckingPrev? || pc.SendingPrev?) && !s.sent[k].copy && s.sent[k].to == pc.active
  }

  ghost predicate SendersDiffer(s: State)
  {
    forall u: nat, v: nat | u != v && Sends(At(s, u)) && Sends(At(s, v)) :: At(s, u).data != At(s, v).data
  }

  /** A send goes to a relay exactly when its check and the hints since say so; a check made
      under the relay-only mode of its send found a relay. */
  ghost predicate SendIsRight(d: Dispatch)
  {
    && (d.relay <==> RelayBy(d.check, d.since, d.to))
    && (d.mode == RelayOnly && d.check.stores == d.stores ==> d.check.relay)
  }

  /** Every send is right; a datagram is sent at most twice, the second time to another
      candidate. */
  ghost predicate LogIsRight(s: State)
  {
    && (forall k | 0 <= k < |s.sent| :: s.sent[k].data < s.numbered)
    && (forall k | 0 <= k < |s.sent| :: SendIsRight(s.sent[k]))
    && (forall j, k | 0 <= j < k < |s.sent| && s.sent[j].data == s.sent[k].data ::
          !s.sent[j].copy && s.sent[k].copy && s.sent[j].to != s.sent[k].to)
  }

  ghost predicate SendInvariant(s: State)
  {
    && (forall u: nat :: SenderKnows(s, At(s, u)) && SenderOwns(s, At(s, u)))
    && SendersDiffer(s) && LogIsRight(s)
  }

  /** What a step sends. */
  function Dispatched(s: State, e: Step): seq<Dispatch>
    requires Enabled(s, e)
  {
    match e
    case SendActive(t) => [DispatchOf(s, At(s, t))]
    case SendPrev(t) => [DispatchOf(s, At(s, t))]
    case _ => []
  }

  lemma Counts(s: State, e: Step)
    requires Enabled(s, e)
    ensures var s' := Next(s, e);
            && s'.sent == s.sent + Dispatched(s, e)
            && s'.numbered == s.numbered + (if e.Snapshot? then 1 else 0)
            && s'.stores == s.stores + (if e.StoreMode? then 1 else 0)
            && (!e.StoreMode? ==> s'.mode == s.mode)
            && s'.hints == s.hints + Hinted(s, e)
  {
    hide Sendable, Selectable, PunchesOf, Minus, SeesStore;
  }

  function Hinted(s: State, e: Step): seq<Told>
    requires Enabled(s, e)
  {
    if e.Hint? then [Told(e.c, if s.info[e.c].isPunch then Punch else e.path)] else []
  }

  /** Only a hint changes whether a known candidate is a relay. */
  lemma RelayKept(s: State, e: Step, c: nat)
    requires Enabled(s, e) && c in s.info
    ensures c in Next(s, e).info
    ensures IsRelay(Next(s, e), c)
            <==> if e.Hint? && e.c == c then Hinted(s, e) == [Told(c, Relay)] else IsRelay(s, c)
  {
    hide Sendable, Selectable, PunchesOf, Minus, SeesStore;
  }

  lemma TrackedOn(s: State, e: Step, c: nat, check: Check)
    requires Enabled(s, e) && c in s.info && check.hints <= |s.hints|
    requires IsRelay(s, c) <==> RelayBy(check, s.hints[check.hints..], c)
    ensures var s' := Next(s, e);
            && c in s'.info && check.hints <= |s'.hints|
            && (IsRelay(s', c) <==> RelayBy(check, s'.hints[check.hints..], c))
  {
    hide Next, Enabled, IsRelay;
    var s' := Next(s, e);
    Counts(s, e);
    RelayKept(s, e, c);
    var since := s.hints[check.hints..];
    assert s'.hints[check.hints..] == since + Hinted(s, e);
    if e.Hint? {
      assert (since + Hinted(s, e))[..|since|] == since;
    } else {
      assert since + Hinted(s, e) == since;
    }
  }

  /** A sending thread numbers its datagram when it reads it, and then keeps it. */
  lemma ActorSends(s: State, e: Step)
    requires Enabled(s, e) && Actor(e).Some? && Sends(At(Next(s, e), Actor(e).value))
    ensures var pc, pc' := At(s, Actor(e).value), At(Next(s, e), Actor(e).value);
            if e.Snapshot? then pc'.Snapped? && pc'.data == s.numbered
            else
              && Sends(pc) && pc'.data == pc.data
              && (e.CheckActive? ==> pc.Snapped? && pc'.SendingActive?)
              && (e.SendActive? ==> pc.SendingActive? && pc' == CheckingPrev(pc.data, pc.active, pc.p))
              && (e.CheckPrev? ==>
                    pc.CheckingPrev? && pc'.SendingPrev? && pc'.active == pc.active && pc'.second != pc.active)
              && (e.CheckActive? || e.SendActive? || e.CheckPrev?)
              && (Sending(pc') ==> pc'.check == CheckOf(s, Target(pc')) && Sendable(s, s.mode, Target(pc')))
  {
  }

  lemma OthersSend(s: State, e: Step, u: nat)
    requires Enabled(s, e) && Actor(e) != Some(u)
    ensures Sends(At(Next(s, e), u)) <==> Sends(At(s, u))
    ensures Sends(At(s, u)) ==> At(Next(s, e), u) == At(s, u)
  {
    hide Sendable, Selectable, PunchesOf, Minus;
  }

  /** A check made this very moment is right. */
  lemma JustChecked(s: State, e: Step, c: nat)
    requires Enabled(s, e) && (e.CheckActive? || e.CheckPrev?) && Sendable(s, s.mode, c)
    ensures var s', check := Next(s, e), CheckOf(s, c);
            && CheckHolds(s', check) && c in s'.info
            && (IsRelay(s', c) <==> RelayBy(check, s'.hints[check.hints..], c))
  {
    Counts(s, e);
    RelayKept(s, e, c);
    assert Next(s, e).hints[|s.hints|..] == [];
  }

  lemma KnowsKept(s: State, e: Step, u: nat)
    requires SendInvariant(s) && Enabled(s, e)
    ensures SenderKnows(Next(s, e), At(Next(s, e), u))
  {
    hide Next, Enabled, SendersDiffer, LogIsRight, IsRelay, Sendable, SenderOwns, RelayBy;
    assert SenderKnows(s, At(s, u));
    var s', pc' := Next(s, e), At(Next(s, e), u);
    Counts(s, e);
    if Actor(e) != Some(u) {
      OthersSend(s, e, u);
      if Sending(pc') {
        TrackedOn(s, e, Target(pc'), pc'.check);
      }
    } else if Sending(pc') {
      ActorSends(s, e);
      JustChecked(s, e, Target(pc'));
    }
  }

  lemma OwnsKept(s: State, e: Step, u: nat)
    requires SendInvariant(s) && Enabled(s, e)
    ensures SenderOwns(Next(s, e), At(Next(s, e), u))
  {
    hide Next, SenderKnows;
    assert SenderOwns(s, At(s, u));
    Counts(s, e);
    if Actor(e) != Some(u) {
      OthersSend(s, e, u);
    } else if Sends(At(Next(s, e), u)) {
      ActorSends(s, e);
    }
  }

  lemma DifferKept(s: State, e: Step, u: nat, v: nat)
    requires SendInvariant(s) && Enabled(s, e) && u != v && Sends(At(Next(s, e), u)) && Sends(At(Next(s, e), v))
    ensures At(Next(s, e), u).data != At(Next(s, e), v).data
  {
    hide Next, Enabled, SenderKnows, LogIsRight;
    assert SenderOwns(s, At(s, u)) && SenderOwns(s, At(s, v));
    if Actor(e) != Some(u) {
      OthersSend(s, e, u);
    } else {
      ActorSends(s, e);
    }
    if Actor(e) != Some(v) {
      OthersSend(s, e, v);
    } else {
      ActorSends(s, e);
    }
  }

  lemma LogKept(s: State, e: Step)
    requires SendInvariant(s) && Enabled(s, e)
    ensures LogIsRight(Next(s, e))
  {
    hide Next, SendersDiffer;
    Counts(s, e);
    if e.SendActive? || e.SendPrev? {
      assert SenderOwns(s, At(s, e.t)) && SenderKnows(s, At(s, e.t));
    }
  }

  lemma NextKeepsSends(s: State, e: Step)
    requires SendInvariant(s) && Enabled(s, e)
    ensures SendInvariant(Next(s, e))
  {
    var s' := Next(s, e);
    forall u: nat ensures SenderKnows(s', At(s', u)) && SenderOwns(s', At(s', u)) {
      KnowsKept(s, e, u);
      OwnsKept(s, e, u);
    }
    forall u: nat, v: nat | u != v && Sends(At(s', u)) && Sends(At(s', v))
      ensures At(s', u).data != At(s', v).data
    {
      DifferKept(s, e, u, v);
    }
    LogKept(s, e);
  }

  /** In every run each send is right: its target is a relay, at the send, exactly when the
      latest path hint since its check says Relay, or there was none and the check found one; and
      a datagram goes to at most two candidates, which differ. */
  lemma {:induction false} SendsAreRight(mode: Mode, enableLAN: bool, run: seq<Step>)
    ensures SendInvariant(After(Initial(mode, enableLAN), run))
    ensures LogIsRight(After(Initial(mode, enableLAN), run))
  {
    if run != [] {
      var before, e := run[..|run| - 1], run[|run| - 1];
      SendsAreRight(mode, enableLAN, before);
      if Enabled(After(Initial(mode, enableLAN), before), e) {
        NextKeepsSends(After(Initial(mode, enableLAN), before), e);
      }
    }
  }

  /** So a relay-only send with no mode store since its check goes to a relay if and only if no
      hint since took its target off Relay for good; with neither, it always does. */
  lemma RelaySendsExactly(mode: Mode, enableLAN: bool, run: seq<Step>, k: nat)
    requires k < |After(Initial(mode, enableLAN), run).sent|
    ensures var d := After(Initial(mode, enableLAN), run).sent[k];
            d.mode == RelayOnly && d.check.stores == d.stores ==> (d.relay <==> !LeftRelay(d.since, d.to))
    ensures var d := After(Initial(mode, enableLAN), run).sent[k];
            d.relay <==> LastTold(d.since, d.to) == Some(Relay) || (LastTold(d.since, d.to).None? && d.check.relay)
  {
    SendsAreRight(mode, enableLAN, run);
    assert SendIsRight(After(Initial(mode, enableLAN), run).sent[k]);
  }

  // ----- And only then ----------------------------------------------------------------------

  lemma {:induction false} AfterBoth(start: State, a: seq<Step>, b: seq<Step>)
    ensures After(start, a + b) == After(After(start, a), b)
  {
    if b == [] {
      assert a + b == a;
    } else {
      AfterBoth(start, a, b[..|b| - 1]);
      assert (a + b)[..|a + b| - 1] == a + b[..|b| - 1];
    }
  }

  lemma Then(s: State, e: Step, rest: seq<Step>)
    requires Enabled(s, e)
    ensures After(s, [e] + rest) == After(Next(s, e), rest)
  {
    assert [e][..0] == [];
    assert After(s, [e]) == Next(s, e);
    AfterBoth(s, [e], rest);
  }

  /** Thread u moved on by itself, without storing a mode, sending or taking a hint. */
  ghost predicate OnlyMoved(s: State, s': State, u: nat)
  {
    && s'.mode == s.mode && s'.stores == s.stores && s'.storer == s.storer && s'.sent == s.sent
    && s'.enableLAN == s.enableLAN && s'.hints == s.hints && s'.info.Keys == s.info.Keys
    && (forall c: nat :: IsRelay(s', c) == IsRelay(s, c))
    && forall v: nat | v != u :: At(s', v) == At(s, v)
  }

  lemma MovesOn(s: State, e: Step)
    requires Enabled(s, e) && (e.Collect? || e.RetireNext? || e.Unlist? || e.LockToSelect? || e.FinishSelect?)
    ensures OnlyMoved(s, Next(s, e), e.t)
  {
    forall v: nat | v != e.t ensures At(Next(s, e), v) == At(s, v) {
      OthersStay(s, e, v);
    }
  }

  /** Taking the lock, selecting nothing and going on. */
  lemma SelectsNothing(s: State, u: nat) returns (run: seq<Step>)
    requires At(s, u).Reselect? && s.lock == None
    ensures var s' := After(s, run);
            && OnlyMoved(s, s', u) && s'.lock == None
            && At(s', u) == if At(s, u).last then Returned else Retiring(At(s, u).rest)
  {
    var locked := Next(s, LockToSelect(u));
    MovesOn(s, LockToSelect(u));
    MovesOn(locked, FinishSelect(u, None, None));
    Then(locked, FinishSelect(u, None, None), []);
    Then(s, LockToSelect(u), [FinishSelect(u, None, None)]);
    run := [LockToSelect(u), FinishSelect(u, None, None)];
    assert [LockToSelect(u)] + [FinishSelect(u, None, None)] == run;
    assert [FinishSelect(u, None, None)] + [] == [FinishSelect(u, None, None)];
  }

  /** Left alone, SetMode's thread retires its list and returns. */
  lemma {:induction false} Finishes(s: State, u: nat) returns (run: seq<Step>)
    requires At(s, u).Retiring? && s.lock == None
    ensures var s' := After(s, run); OnlyMoved(s, s', u) && s'.lock == None && At(s', u) == Returned
    decreases |At(s, u).rest|
  {
    var rest := At(s, u).rest;
    var s1 := Next(s, RetireNext(u));
    MovesOn(s, RetireNext(u));
    if rest == [] {
      var more := SelectsNothing(s1, u);
      Then(s, RetireNext(u), more);
      run := [RetireNext(u)] + more;
    } else if At(s1, u).Retiring? {
      var more := Finishes(s1, u);
      Then(s, RetireNext(u), more);
      run := [RetireNext(u)] + more;
    } else {
      var s2 := Next(s1, Unlist(u));
      MovesOn(s1, Unlist(u));
      var selecting := SelectsNothing(s2, u);
      var more := Finishes(After(s2, selecting), u);
      AfterBoth(s2, selecting, more);
      Then(s1, Unlist(u), selecting + more);
      Then(s, RetireNext(u), [Unlist(u)] + (selecting + more));
      run := [RetireNext(u)] + ([Unlist(u)] + (selecting + more));
    }
  }

  function SendStep(pc: Pc, t: nat): Step
    requires Sending(pc)
  {
    if pc.SendingActive? then SendActive(t) else SendPrev(t)
  }

  lemma SendsNow(s: State, t: nat)
    requires Sending(At(s, t))
    ensures var e := SendStep(At(s, t), t);
            && Enabled(s, e) && After(s, [e]) == Next(s, e)
            && Next(s, e).sent == s.sent + [DispatchOf(s, At(s, t))]
            && Next(s, e).mode == s.mode && Next(s, e).storer == s.storer
            && forall v: nat | v != t :: At(Next(s, e), v) == At(s, v)
  {
    var e := SendStep(At(s, t), t);
    Then(s, e, []);
    assert [e] + [] == [e];
    forall v: nat | v != t ensures At(Next(s, e), v) == At(s, v) {
      OthersStay(s, e, v);
    }
  }

  /** A thread left alone completes SetMode("relay-only"). */
  lemma Switches(s: State, u: nat) returns (run: seq<Step>)
    requires At(s, u) == Idle && s.lock == None
    ensures var s' := After(s, run);
            && s'.mode == RelayOnly && s'.stores == s.stores + 1 && s'.storer == Some(u) && At(s', u) == Returned
            && s'.lock == None && s'.sent == s.sent && s'.hints == s.hints && s'.enableLAN == s.enableLAN
            && s'.info.Keys == s.info.Keys && (forall c: nat :: IsRelay(s', c) == IsRelay(s, c))
            && forall v: nat | v != u && !At(s, v).Selecting? :: At(s', v) == At(s, v)
  {
    var s1 := Next(s, StoreMode(u, RelayOnly));
    forall v: nat | v != u && !At(s, v).Selecting? ensures At(s1, v) == At(s, v) {
      OthersStay(s, StoreMode(u, RelayOnly), v);
    }
    var s2 := Next(s1, Collect(u));
    MovesOn(s1, Collect(u));
    var finishing := Finishes(s2, u);
    Then(s1, Collect(u), finishing);
    Then(s, StoreMode(u, RelayOnly), [Collect(u)] + finishing);
    run := [StoreMode(u, RelayOnly)] + ([Collect(u)] + finishing);
  }

  /** The first cause: any check made before the store can slip. Whatever the state, when a
      thread has checked a candidate but not yet sent, be it the active one or the dual-send
      copy, another thread can complete SetMode("relay-only") first, and the datagram then goes
      to that candidate all the same, relay or not. */
  lemma EarlierChecksSlip(s: State, t: nat, u: nat) returns (run: seq<Step>)
    requires Sending(At(s, t)) && At(s, u) == Idle && s.lock == None
    ensures var s', d := After(s, run), DispatchOf(s, At(s, t));
            && s'.mode == RelayOnly && s'.storer == Some(u) && At(s', u) == Returned
            && s'.sent == s.sent + [d.(mode := RelayOnly, stores := s.stores + 1)]
            && d.to == Target(At(s, t)) && d.relay == IsRelay(s, d.to)
  {
    hide IsRelay;
    var switching := Switches(s, u);
    var s1 := After(s, switching);
    SendsNow(s1, t);
    run := switching + [SendStep(At(s1, t), t)];
    AfterBoth(s, switching, [SendStep(At(s1, t), t)]);
  }

  /** The second cause: any check can slip by a hint. Whatever the mode, a hint may take the
      checked candidate off Relay before the send. */
  lemma HintsSlip(s: State, t: nat) returns (run: seq<Step>)
    requires Sending(At(s, t)) && IsRelay(s, Target(At(s, t)))
    ensures var s', pc := After(s, run), At(s, t);
            && s'.mode == s.mode && s'.storer == s.storer
            && (forall v: nat | v != t :: At(s', v) == At(s, v))
            && exists d :: && s'.sent == s.sent + [d] && d.data == pc.data && d.to == Target(pc) && d.check == pc.check
                           && d.mode == s.mode && d.stores == s.stores && !d.relay
  {
    var hint := Hint(Target(At(s, t)), Direct);
    var s1 := Next(s, hint);
    SendsNow(s1, t);
    var send := SendStep(At(s, t), t);
    Then(s, hint, [send]);
    run := [hint] + [send];
  }

  // Both happen in runs from the start.

  /** Candidate 7 is listed on a path the mode allows, and threads 0 and 1 are free. */
  predicate Ready(s: State, path: Path)
  {
    && s.lock == None && 7 in s.list && 7 in s.info && s.info[7] == Info(false, path, false)
    && Sendable(s, s.mode, 7) && At(s, 0) == Idle && At(s, 1) == Idle
  }

  /** Thread 1 has checked candidate 7 for a datagram, in the present mode and with no hint since. */
  predicate CheckedNow(s: State, path: Path)
  {
    && At(s, 1).SendingActive? && At(s, 1).active == 7 && At(s, 1).check == CheckOf(s, 7)
    && s.lock == None && 7 in s.info && s.info[7] == Info(false, path, false)
  }

  lemma Two(s: State, a: Step, b: Step)
    requires Enabled(s, a) && Enabled(Next(s, a), b)
    ensures After(s, [a, b]) == Next(Next(s, a), b)
  {
    Then(Next(s, a), b, []);
    Then(s, a, [b]);
    assert [a] + [b] == [a, b] && [b] + [] == [b];
  }

  lemma Lists(s: State, path: Path) returns (run: seq<Step>)
    requires s.lock == None && 7 !in s.info && Allowed(s.mode, s.enableLAN, false, path)
    requires At(s, 0) == Idle && At(s, 1) == Idle
    ensures var s' := After(s, run);
            && Ready(s', path) && s'.mode == s.mode && s'.stores == s.stores && s'.storer == s.storer
            && s'.sent == s.sent
            && At(s', 2) == At(s, 2)
  {
    run := [AddPlain(7), Hint(7, path)];
    Two(s, AddPlain(7), Hint(7, path));
  }

  lemma Selects(s: State, path: Path) returns (run: seq<Step>)
    requires Ready(s, path)
    ensures var s' := After(s, run);
            && s'.lock == None && s'.best == Some(7) && 7 in s'.info && s'.info[7] == s.info[7]
            && Sendable(s', s'.mode, 7)
            && s'.mode == s.mode && s'.stores == s.stores && s'.storer == s.storer && s'.sent == s.sent
            && At(s', 1) == Idle && At(s', 2) == At(s, 2)
  {
    var s1 := Next(s, BeginSelect(0));
    var s2 := Next(s1, LockToSelect(0));
    assert s.mode in At(s2, 0).seen && Sendable(s2, s.mode, 7) && 7 in s2.list;
    Two(s1, LockToSelect(0), FinishSelect(0, Some(7), None));
    Then(s, BeginSelect(0), [LockToSelect(0), FinishSelect(0, Some(7), None)]);
    run := [BeginSelect(0)] + [LockToSelect(0), FinishSelect(0, Some(7), None)];
  }

  lemma Checks(s: State, path: Path) returns (run: seq<Step>)
    requires Ready(s, path)
    ensures var s' := After(s, run);
            && CheckedNow(s', path) && s'.mode == s.mode && s'.stores == s.stores && s'.storer == s.storer
            && s'.sent == s.sent
            && At(s', 2) == At(s, 2)
  {
    var selecting := Selects(s, path);
    var s1 := After(s, selecting);
    Two(s1, Snapshot(1), CheckActive(1));
    AfterBoth(s, selecting, [Snapshot(1), CheckActive(1)]);
    run := selecting + [Snapshot(1), CheckActive(1)];
  }

  /** A datagram checked before the switch goes to a direct candidate after it. */
  lemma DirectSendHappens() returns (run: seq<Step>)
    ensures var s := After(Initial(Auto, true), run);
            && s.mode == RelayOnly && s.storer == Some(2) && At(s, 2) == Returned
            && exists d :: s.sent == [d] && d.mode == RelayOnly && d.check.stores < d.stores && !d.relay
  {
    hide Next, Enabled;
    var s0 := Initial(Auto, true);
    var listing := Lists(s0, Direct);
    var checking := Checks(After(s0, listing), Direct);
    AfterBoth(s0, listing, checking);
    var s1 := After(s0, listing + checking);
    var slipping := EarlierChecksSlip(s1, 1, 2);
    AfterBoth(s0, listing + checking, slipping);
    run := listing + checking + slipping;
    assert After(s0, run).sent == [DispatchOf(s1, At(s1, 1)).(mode := RelayOnly, stores := s1.stores + 1)];
  }

  /** A datagram checked after SetMode("relay-only") has returned, when its target was a relay,
      goes to a candidate that a hint has made direct meanwhile. */
  lemma HintedSendHappens() returns (run: seq<Step>)
    ensures var s := After(Initial(Auto, true), run);
            && s.mode == RelayOnly && s.storer == Some(2) && At(s, 2) == Returned
            && exists d ::
                 s.sent == [d] && d.mode == RelayOnly && d.check.stores == d.stores && d.check.relay && !d.relay
  {
    hide Next, Enabled;
    var s0 := Initial(Auto, true);
    var switching := Switches(s0, 2);
    var s1 := After(s0, switching);
    var listing := Lists(s1, Relay);
    var checking := Checks(After(s1, listing), Relay);
    AfterBoth(s1, listing, checking);
    var s2 := After(s1, listing + checking);
    var slipping := HintsSlip(s2, 1);
    AfterBoth(s1, listing + checking, slipping);
    AfterBoth(s0, switching, listing + checking + slipping);
    run := switching + (listing + checking + slipping);
  }
}
