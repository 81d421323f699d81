/** The client's route selector (pkg/client/client.go:387-465, 579-661, 960-1008, 1143-1295,
    1352-1364): candidate list, hysteresis switch, LAN preference and the dual-send window. */
module RouteSelect {
  import opened Bytes
  import opened ServerModel
  import Endpoints

  const DEFAULT_SERVER_PORT: nat := 27014
  const MAX_CANDIDATES: nat := 64
  const MAX_PUNCH: nat := 8
  const MS: int := 1_000_000
  const LIVENESS: int := 15 * SECOND
  const DUAL_WINDOW: int := 400 * MS
  const UNKNOWN_RTT: int := 999 * MS

  datatype Path = Unknown | Relay | Punch | Direct | Lan
  datatype Mode = Auto | DirectOnly | RelayOnly

  /** `id` stands for the pointer. */
  datatype Candidate = Candidate(
    id: nat,
    addrStr: string,
    addr: Addr,
    isPunch: bool,
    online: bool,
    rtt: int,
    lastActive: Option<int>,
    path: Path)

  datatype Routes = Routes(
    list: seq<Candidate>,
    best: Option<nat>,
    prev: Option<nat>,
    dualUntil: Option<int>,
    mode: Mode,
    enableLAN: bool)

  /** Go's division of an integer by a positive constant, toward zero. */
  function Trunc(a: int, b: int): int
    requires b > 0
  {
    if a < 0 then -(-a / b) else a / b
  }

  function Lookup(list: seq<Candidate>, id: nat): Option<Candidate>
  {
    if list == [] then None else if list[0].id == id then Some(list[0]) else Lookup(list[1..], id)
  }

  predicate Allowed(mode: Mode, enableLAN: bool, isPunch: bool, path: Path)
  {
    match mode
    case RelayOnly => !isPunch && path == Relay
    case DirectOnly => path == Direct || path == Punch || (path == Lan && enableLAN)
    case Auto => path != Unknown && (path == Lan ==> enableLAN)
  }

  predicate Admits(s: Routes, c: Candidate)
  {
    Allowed(s.mode, s.enableLAN, c.isPunch, c.path)
  }

  predicate Live(c: Candidate, now: int)
  {
    c.online && c.lastActive.Some? && now - c.lastActive.value <= LIVENESS
  }

  predicate Eligible(s: Routes, c: Candidate, now: int)
  {
    Admits(s, c) && Live(c, now)
  }

  function Effective(c: Candidate): int
  {
    if c.path == Lan then Trunc(c.rtt, 10) else c.rtt
  }

  // ----- Selection ------------------------------------------------------------------------

  /** The fastest eligible candidate among the first n. */
  function Fastest(s: Routes, now: int, n: nat): (best: Option<nat>)
    requires n <= |s.list|
    ensures best.Some? ==> best.value < n
  {
    if n == 0 then None
    else
      var b := Fastest(s, now, n - 1);
      if Eligible(s, s.list[n - 1], now) && (b.None? || Effective(s.list[n - 1]) < Effective(s.list[b.value]))
      then Some(n - 1) else b
  }

  /** Whether the current candidate is kept although another one is faster. */
  predicate Keeps(s: Routes, current: Candidate, fastest: Candidate, now: int)
  {
    && Eligible(s, current, now) && fastest.path != Lan
    && (current.path == Lan
        || (current.rtt - fastest.rtt < 5 * MS && current.rtt - fastest.rtt < Trunc(current.rtt, 7)))
  }

  function SwitchedTo(s: Routes, c: Candidate, now: int): Routes
  {
    var leaving := if s.best.Some? then Lookup(s.list, s.best.value) else None;
    if leaving.Some? && leaving.value.online && Admits(s, leaving.value) && Admits(s, c)
    then s.(best := Some(c.id), prev := s.best, dualUntil := Some(now + DUAL_WINDOW))
    else s.(best := Some(c.id))
  }

  function Settled(s: Routes, c: Candidate, now: int): Routes
  {
    if s.best == Some(c.id) then s
    else
      var current := if s.best.Some? then Lookup(s.list, s.best.value) else None;
      if current.Some? && Keeps(s, current.value, c, now) then s else SwitchedTo(s, c, now)
  }

  function Selected(s: Routes, now: int): Routes
  {
    match Fastest(s, now, |s.list|)
    case None => s.(best := None, prev := None, dualUntil := None)
    case Some(i) => Settled(s, s.list[i], now)
  }

  lemma SelectedIs(s: Routes, now: int)
    ensures var i := Fastest(s, now, |s.list|);
            Selected(s, now) == if i.None? then s.(best := None, prev := None, dualUntil := None)
                                else Settled(s, s.list[i.value], now)
  {
  }

  /** Candidate i is eligible, none is faster, and none before it is as fast. */
  ghost predicate IsFastest(s: Routes, now: int, i: nat, n: nat)
    requires n <= |s.list|
  {
    && i < n && Eligible(s, s.list[i], now)
    && forall j | 0 <= j < n && Eligible(s, s.list[j], now) ::
         Effective(s.list[i]) <= Effective(s.list[j]) && (j < i ==> Effective(s.list[i]) < Effective(s.list[j]))
  }

  lemma {:induction false} FastestIsFastest(s: Routes, now: int, n: nat)
    requires n <= |s.list|
    ensures forall i: nat :: Fastest(s, now, n) == Some(i) <==> IsFastest(s, now, i, n)
    ensures Fastest(s, now, n) == None <==> forall j | 0 <= j < n :: !Eligible(s, s.list[j], now)
  {
    if n > 0 {
      FastestIsFastest(s, now, n - 1);
      var b := Fastest(s, now, n - 1);
      if b.Some? {
        assert IsFastest(s, now, b.value, n - 1);
      }
      var r := Fastest(s, now, n);
      if r.Some? {
        assert IsFastest(s, now, r.value, n);
      }
      forall i: nat | IsFastest(s, now, i, n) ensures r == Some(i) {
        assert r.Some?;
        assert Eligible(s, s.list[r.value], now);
      }
    }
  }

  // ----- The list -------------------------------------------------------------------------

  predicate Listed(list: seq<Candidate>, id: nat)
  {
    exists i :: 0 <= i < |list| && list[i].id == id
  }

  function Punches(list: seq<Candidate>): nat
  {
    if list == [] then 0 else Punches(list[..|list| - 1]) + if list[|list| - 1].isPunch then 1 else 0
  }

  ghost predicate Distinct(list: seq<Candidate>)
  {
    forall i, j | 0 <= i < j < |list| ::
      list[i].id != list[j].id && (list[i].isPunch == list[j].isPunch ==> list[i].addr != list[j].addr)
  }

  /** What every run keeps. */
  ghost predicate Routable(s: Routes)
  {
    && |s.list| <= MAX_CANDIDATES && Punches(s.list) <= MAX_PUNCH && Distinct(s.list)
    && (s.best.Some? ==> Listed(s.list, s.best.value))
    && (s.prev.Some? ==> Listed(s.list, s.prev.value))
  }

  lemma {:induction false} LookupListed(list: seq<Candidate>, id: nat)
    ensures Lookup(list, id).Some? <==> Listed(list, id)
    ensures Lookup(list, id).Some? ==> Lookup(list, id).value in list && Lookup(list, id).value.id == id
  {
    if list != [] {
      LookupListed(list[1..], id);
      if list[0].id != id && Listed(list, id) {
        var i :| 0 <= i < |list| && list[i].id == id;
        assert list[1..][i - 1].id == id;
      }
      if Listed(list[1..], id) {
        var i :| 0 <= i < |list[1..]| && list[1..][i].id == id;
        assert list[i + 1].id == id;
      }
      assert list[0].id == id ==> Listed(list, id);
    }
  }

  lemma LookupAt(list: seq<Candidate>, i: nat)
    requires Distinct(list) && i < |list|
    ensures Lookup(list, list[i].id) == Some(list[i])
  {
    LookupListed(list, list[i].id);
    assert Listed(list, list[i].id);
  }

  /** After each selection: nothing is selected exactly when nothing is eligible; what is
      selected is eligible, and is the fastest candidate, a live LAN candidate kept against a
      WAN one, or a WAN candidate less than 5 ms and less than a seventh of its RTT behind. */
  lemma SelectionIsNearMinimal(s: Routes, now: int)
    requires Routable(s)
    ensures var s' := Selected(s, now);
            && Routable(s')
            && (s'.best.None? <==> forall j | 0 <= j < |s.list| :: !Eligible(s, s.list[j], now))
            && (s'.best.None? ==> s'.prev.None? && s'.dualUntil.None?)
            && (s'.best.Some? ==> exists i: nat, k: nat :: NearMinimal(s, now, i, k) && s'.best == Some(s.list[k].id))
  {
    FastestIsFastest(s, now, |s.list|);
    var fastest, s' := Fastest(s, now, |s.list|), Selected(s, now);
    if fastest.Some? {
      var i := fastest.value;
      assert IsFastest(s, now, i, |s.list|);
      if s'.best == Some(s.list[i].id) {
        assert NearMinimal(s, now, i, i);
      } else {
        LookupListed(s.list, s.best.value);
        var k :| 0 <= k < |s.list| && s.list[k].id == s.best.value;
        LookupAt(s.list, k);
        assert NearMinimal(s, now, i, k);
      }
    }
  }

  /** Candidate k may be selected when i is the fastest. */
  ghost predicate NearMinimal(s: Routes, now: int, i: nat, k: nat)
  {
    && k < |s.list| && IsFastest(s, now, i, |s.list|) && Eligible(s, s.list[k], now)
    && var c, m := s.list[k], s.list[i];
       || k == i
       || (c.path == Lan && m.path != Lan)
       || (c.path != Lan && m.path != Lan && c.rtt - m.rtt < 5 * MS && c.rtt - m.rtt < Trunc(c.rtt, 7))
  }

  /** It leaves an eligible candidate exactly when the fastest one is LAN, or is WAN and ahead
      of a WAN candidate by 5 ms or by a seventh of its RTT. */
  lemma SwitchesExactlyWhen(s: Routes, now: int, i: nat, k: nat)
    requires Routable(s) && IsFastest(s, now, i, |s.list|) && k < |s.list| && k != i
    requires s.best == Some(s.list[k].id) && Eligible(s, s.list[k], now)
    ensures var c, m := s.list[k], s.list[i];
            Selected(s, now).best != s.best
            <==> m.path == Lan || (c.path != Lan && (c.rtt - m.rtt >= 5 * MS || c.rtt - m.rtt >= Trunc(c.rtt, 7)))
    ensures Selected(s, now).best != s.best ==>
              Selected(s, now) == s.(best := Some(s.list[i].id), prev := s.best, dualUntil := Some(now + DUAL_WINDOW))
    ensures Selected(s, now).best == s.best ==> Selected(s, now) == s
  {
    FastestIsFastest(s, now, |s.list|);
    LookupAt(s.list, k);
    assert s.list[i].id != s.list[k].id;
  }

  /** Selecting again on the same data and clock changes nothing. */
  lemma SelectionIsStable(s: Routes, now: int)
    requires Routable(s)
    ensures Selected(Selected(s, now), now) == Selected(s, now)
  {
    var s' := Selected(s, now);
    SameFastest(s, s', now, |s.list|);
  }

  lemma {:induction false} SameFastest(s: Routes, s': Routes, now: int, n: nat)
    requires s'.list == s.list && s'.mode == s.mode && s'.enableLAN == s.enableLAN && n <= |s.list|
    ensures Fastest(s', now, n) == Fastest(s, now, n)
  {
    if n > 0 {
      SameFastest(s, s', now, n - 1);
    }
  }

  // ----- By label ---------------------------------------------------------------------------

  /** The label suits the mode. */
  predicate Suits(mode: Mode, enableLAN: bool, c: Candidate)
  {
    && c.path != Unknown
    && (mode == RelayOnly ==> c.path == Relay && !c.isPunch)
    && (mode == DirectOnly ==> c.path != Relay)
    && (c.path == Lan ==> enableLAN)
  }

  /** Heard from in the last 15 s. */
  predicate Heard(c: Candidate, now: int)
  {
    c.online && c.lastActive.Some? && now - c.lastActive.value <= 15_000_000_000
  }

  lemma EligibleByLabel(s: Routes, c: Candidate, now: int)
    ensures Eligible(s, c, now) <==> Suits(s.mode, s.enableLAN, c) && Heard(c, now)
    ensures Admits(s, c) <==> Suits(s.mode, s.enableLAN, c)
  {
  }

  /** What a candidate's time counts for: a tenth on a LAN. */
  function Weighed(c: Candidate): int
  {
    if c.path == Lan && c.rtt >= 0 then c.rtt / 10 else c.rtt
  }

  /** What is selected suits the mode and was heard from; it is the fastest such candidate, or a LAN
      one, or less than 5 ms and less than a seventh behind; and nothing is selected only when there
      is none. */
  lemma SelectionByLabel(s: Routes, now: int)
    requires Routable(s)
    ensures var s' := Selected(s, now);
            && (s'.best.None? <==> forall d | d in s.list :: !(Suits(s.mode, s.enableLAN, d) && Heard(d, now)))
            && (s'.best.Some? ==> exists c :: c in s.list && s'.best == Some(c.id))
            && (forall c | c in s.list && s'.best == Some(c.id) :: Suits(s.mode, s.enableLAN, c) && Heard(c, now))
    ensures var s' := Selected(s, now);
            forall c, d | && c in s.list && d in s.list && s'.best == Some(c.id) && c.rtt >= 0 && d.rtt >= 0
                          && Suits(s.mode, s.enableLAN, d) && Heard(d, now) ::
              || Weighed(c) <= Weighed(d) || c.path == Lan
              || (c.rtt - Weighed(d) < 5_000_000 && c.rtt - Weighed(d) < c.rtt / 7)
  {
    hide Eligible, Selected, Suits, Heard, IsFastest, Distinct, Weighed;
    var s' := Selected(s, now);
    SelectionIsNearMinimal(s, now);
    forall c ensures Eligible(s, c, now) <==> Suits(s.mode, s.enableLAN, c) && Heard(c, now) {
      EligibleByLabel(s, c, now);
    }
    if s'.best.Some? {
      var i: nat, k: nat :| NearMinimal(s, now, i, k) && s'.best == Some(s.list[k].id);
      SelectedAt(s, now, i, k);
      forall d | d in s.list && Eligible(s, d, now) && s.list[k].rtt >= 0 && d.rtt >= 0
        ensures || Weighed(s.list[k]) <= Weighed(d) || s.list[k].path == Lan
                || (s.list[k].rtt - Weighed(d) < 5_000_000 && s.list[k].rtt - Weighed(d) < s.list[k].rtt / 7)
      {
        var j :| 0 <= j < |s.list| && s.list[j] == d;
        NearMinimalWeighs(s, now, i, k, j);
      }
    }
  }

  lemma SelectedAt(s: Routes, now: int, i: nat, k: nat)
    requires Routable(s) && NearMinimal(s, now, i, k)
    ensures Eligible(s, s.list[k], now) && s.list[k] in s.list
    ensures forall c | c in s.list && c.id == s.list[k].id :: c == s.list[k]
  {
    forall c | c in s.list && c.id == s.list[k].id ensures c == s.list[k] {
      LookupAt(s.list, k);
    }
  }

  lemma NearMinimalWeighs(s: Routes, now: int, i: nat, k: nat, j: nat)
    requires NearMinimal(s, now, i, k) && j < |s.list| && Eligible(s, s.list[j], now)
    requires s.list[k].rtt >= 0 && s.list[j].rtt >= 0
    ensures var c, d := s.list[k], s.list[j];
            || Weighed(c) <= Weighed(d) || c.path == Lan
            || (c.rtt - Weighed(d) < 5_000_000 && c.rtt - Weighed(d) < c.rtt / 7)
  {
    hide Eligible;
  }

  /** Where a game datagram goes. */
  function Targets(s: Routes, now: int): seq<nat>
  {
    var active := if s.best.Some? then Lookup(s.list, s.best.value) else None;
    var before := if s.prev.Some? then Lookup(s.list, s.prev.value) else None;
    if active.None? || !Admits(s, active.value) then []
    else if before.Some? && s.prev != s.best && Admits(s, before.value) && s.dualUntil.Some? && now < s.dualUntil.value
    then [s.best.value, s.prev.value]
    else [s.best.value]
  }

  /** The same by label. */
  lemma TargetsByLabel(s: Routes, now: int)
    requires Routable(s)
    ensures s.best.None? ==> Targets(s, now) == []
    ensures forall a | a in s.list && s.best == Some(a.id) ::
              if !Suits(s.mode, s.enableLAN, a) then Targets(s, now) == []
              else Targets(s, now) == [a.id] || (s.prev.Some? && Targets(s, now) == [a.id, s.prev.value])
    ensures forall a | a in s.list && s.best == Some(a.id) && s.prev.None? ::
              Targets(s, now) == if Suits(s.mode, s.enableLAN, a) then [a.id] else []
    ensures forall a, b | a in s.list && s.best == Some(a.id) && b in s.list && s.prev == Some(b.id) ::
              if !Suits(s.mode, s.enableLAN, a) then Targets(s, now) == []
              else if b.id != a.id && Suits(s.mode, s.enableLAN, b) && s.dualUntil.Some? && now < s.dualUntil.value
              then Targets(s, now) == [a.id, b.id] else Targets(s, now) == [a.id]
    ensures forall c | c in s.list && c.id in Targets(s, now) :: Suits(s.mode, s.enableLAN, c)
  {
    forall c | c in s.list
      ensures Lookup(s.list, c.id) == Some(c) && (Admits(s, c) <==> Suits(s.mode, s.enableLAN, c))
    {
      var i :| 0 <= i < |s.list| && s.list[i] == c;
      LookupAt(s.list, i);
      EligibleByLabel(s, c, 0);
    }
    hide Suits, Distinct, Admits;
    forall id ensures Lookup(s.list, id).Some? <==> Listed(s.list, id) {
      LookupListed(s.list, id);
    }
  }

  /** A switch remembers the candidate it leaves, for 400 ms, exactly when that one is online and its
      label suits the mode. */
  lemma SwitchRemembers(s: Routes, now: int, c: Candidate)
    requires Routable(s) && c in s.list && s.best == Some(c.id)
    requires Selected(s, now).best.Some? && Selected(s, now).best != s.best
    ensures var s' := Selected(s, now);
            if c.online && Suits(s.mode, s.enableLAN, c)
            then s'.prev == Some(c.id) && s'.dualUntil == Some(now + 400_000_000)
            else s'.prev == s.prev && s'.dualUntil == s.dualUntil
  {
    var k :| 0 <= k < |s.list| && s.list[k] == c;
    LookupAt(s.list, k);
    EligibleByLabel(s, c, now);
    FastestIsFastest(s, now, |s.list|);
    var i := Fastest(s, now, |s.list|).value;
    assert IsFastest(s, now, i, |s.list|);
  }

  /** With nothing selected before, the first of the fastest candidates that may be used is. */
  lemma FirstOfFastest(s: Routes, now: int, i: nat)
    requires Routable(s) && s.best.None? && i < |s.list| && Selected(s, now).best == Some(s.list[i].id)
    requires forall c | c in s.list :: c.rtt >= 0
    ensures forall d: nat | d < |s.list| && Suits(s.mode, s.enableLAN, s.list[d]) && Heard(s.list[d], now) ::
              Weighed(s.list[i]) <= Weighed(s.list[d]) && (d < i ==> Weighed(s.list[i]) < Weighed(s.list[d]))
  {
    FastestIsFastest(s, now, |s.list|);
    var k := Fastest(s, now, |s.list|).value;
    assert IsFastest(s, now, k, |s.list|);
    LookupAt(s.list, k);
    LookupAt(s.list, i);
    forall c ensures Eligible(s, c, now) <==> Suits(s.mode, s.enableLAN, c) && Heard(c, now) {
      EligibleByLabel(s, c, now);
    }
    hide Eligible, Suits, Heard, Selected;
  }

  /** Leaving a candidate that could still be used is smooth: at every instant of the next 400 ms,
      and not after, while the choice stands and both labels suit the mode, a datagram goes to both. */
  lemma SwitchIsCovered(s: Routes, now: int, c: Candidate, t: Routes, later: int)
    requires Routable(s) && Routable(t)
    requires c in s.list && s.best == Some(c.id) && c.online && Suits(s.mode, s.enableLAN, c)
    requires Selected(s, now).best.Some? && Selected(s, now).best != s.best
    requires var s' := Selected(s, now); t.best == s'.best && t.prev == s'.prev && t.dualUntil == s'.dualUntil
    requires forall d | d in t.list && (d.id == c.id || t.best == Some(d.id)) :: Suits(t.mode, t.enableLAN, d)
    ensures var chosen := Selected(s, now).best.value;
            Targets(t, later) == if later < now + 400_000_000 then [chosen, c.id] else [chosen]
  {
    SwitchRemembers(s, now, c);
    hide Suits, Selected, Targets;
    var x := ListedAt(t.list, t.best.value);
    var y := ListedAt(t.list, t.prev.value);
    assert t.list[x] in t.list && t.list[y] in t.list;
    TargetsByLabel(t, later);
  }

  // ----- No flapping ----------------------------------------------------------------------

  /** Every eligible candidate is WAN, and their RTTs lie within 5 ms and within a seventh of
      the smallest. */
  ghost predicate Calm(s: Routes, now: int)
  {
    && (forall j | 0 <= j < |s.list| && Eligible(s, s.list[j], now) :: s.list[j].path != Lan)
    && (forall j, k, m | 0 <= j < |s.list| && 0 <= k < |s.list| && 0 <= m < |s.list|
          && Eligible(s, s.list[j], now) && Eligible(s, s.list[k], now) && Eligible(s, s.list[m], now) ::
          s.list[j].rtt - s.list[k].rtt < 5 * MS && s.list[j].rtt - s.list[k].rtt < Trunc(s.list[m].rtt, 7))
  }

  ghost predicate BestEligible(s: Routes, now: int)
  {
    s.best.Some? && exists k :: 0 <= k < |s.list| && s.list[k].id == s.best.value && Eligible(s, s.list[k], now)
  }

  lemma CalmPair(s: Routes, now: int, i: nat, k: nat)
    requires Calm(s, now) && i < |s.list| && k < |s.list|
    requires Eligible(s, s.list[i], now) && Eligible(s, s.list[k], now)
    ensures s.list[i].path != Lan && s.list[k].path != Lan
    ensures s.list[k].rtt - s.list[i].rtt < 5 * MS && s.list[k].rtt - s.list[i].rtt < Trunc(s.list[k].rtt, 7)
  {
  }

  lemma CalmKeeps(s: Routes, now: int)
    requires Routable(s) && Calm(s, now) && BestEligible(s, now)
    ensures Selected(s, now) == s
  {
    hide Calm, Eligible, Trunc, Distinct;
    FastestIsFastest(s, now, |s.list|);
    var k: nat :| k < |s.list| && s.list[k].id == s.best.value && Eligible(s, s.list[k], now);
    var i := Fastest(s, now, |s.list|).value;
    assert IsFastest(s, now, i, |s.list|);
    CalmPair(s, now, i, k);
    if i != k {
      SwitchesExactlyWhen(s, now, i, k);
    }
  }

  /** New measurements and a selection. */
  datatype Tick = Tick(list: seq<Candidate>, now: int)

  function AfterTicks(s: Routes, ticks: seq<Tick>): Routes
  {
    if ticks == [] then s
    else
      var t := ticks[|ticks| - 1];
      Selected(AfterTicks(s, ticks[..|ticks| - 1]).(list := t.list), t.now)
  }

  /** Over any run in which the selected candidate stays eligible and the eligible ones stay
      calm, the selection never changes, however the fastest one varies. */
  lemma {:induction false} CalmNeverFlaps(s: Routes, ticks: seq<Tick>)
    requires forall k | 0 <= k < |ticks| ::
               var measured := s.(list := ticks[k].list);
               Routable(measured) && Calm(measured, ticks[k].now) && BestEligible(measured, ticks[k].now)
    ensures AfterTicks(s, ticks) == s.(list := AfterTicks(s, ticks).list)
  {
    if ticks != [] {
      var before, t := ticks[..|ticks| - 1], ticks[|ticks| - 1];
      CalmNeverFlaps(s, before);
      assert AfterTicks(s, before).(list := t.list) == s.(list := t.list);
      CalmKeeps(s.(list := t.list), t.now);
    }
  }

  // ----- Adding and removing ----------------------------------------------------------------

  function NewCandidate(id: nat, addrStr: string, addr: Addr, isPunch: bool): Candidate
  {
    Candidate(id, addrStr, addr, isPunch, false, UNKNOWN_RTT, None, if isPunch then Punch else Unknown)
  }

  /** What listing an endpoint again records: only a first relay label sticks. */
  function Noted(c: Candidate, path: Path): Candidate
  {
    if c.isPunch then c.(path := Punch)
    else if path == Relay && c.path == Unknown then c.(path := Relay)
    else c
  }

  /** At most the candidate found has changed: a punch one keeps its label, another one takes the
      label Relay when it had none. */
  ghost predicate Relabelled(before: seq<Candidate>, after: seq<Candidate>, found: Option<nat>, path: Path)
  {
    && |after| == |before| && (found.Some? ==> found.value < |before|)
    && forall i | 0 <= i < |before| ::
         if found == Some(i) then
           && after[i].(path := before[i].path) == before[i]
           && after[i].path == if before[i].isPunch then Punch
                               else if before[i].path == Unknown && path == Relay then Relay else before[i].path
         else after[i] == before[i]
  }

  function FirstNamed(list: seq<Candidate>, addrStr: string): (p: Option<nat>)
    ensures p.Some? ==> p.value < |list| && list[p.value].addrStr == addrStr
                        && forall j | 0 <= j < p.value :: list[j].addrStr != addrStr
    ensures p.None? ==> forall j | 0 <= j < |list| :: list[j].addrStr != addrStr
  {
    if list == [] then None
    else if list[0].addrStr == addrStr then Some(0)
    else match FirstNamed(list[1..], addrStr) case None => None case Some(i) => Some(i + 1)
  }

  function FirstAt(list: seq<Candidate>, addr: Addr): (p: Option<nat>)
    ensures p.Some? ==> p.value < |list| && list[p.value].addr == addr
                        && forall j | 0 <= j < p.value :: list[j].addr != addr
    ensures p.None? ==> forall j | 0 <= j < |list| :: list[j].addr != addr
  {
    if list == [] then None
    else if list[0].addr == addr then Some(0)
    else match FirstAt(list[1..], addr) case None => None case Some(i) => Some(i + 1)
  }

  /** The first lock section of adding: an endpoint listed by name is only labelled again. */
  function NotedByName(s: Routes, addrStr: string, path: Path): Routes
  {
    var named := FirstNamed(s.list, addrStr);
    if named.Some? then s.(list := s.list[named.value := Noted(s.list[named.value], path)]) else s
  }

  /** The second one, after the name was resolved; `starts` says whether the reader could be. */
  function AddedResolved(s: Routes, id: nat, addrStr: string, addr: Addr, starts: bool, path: Path): Routes
  {
    var same := FirstAt(s.list, addr);
    if same.Some? then s.(list := s.list[same.value := Noted(s.list[same.value], path)])
    else if |s.list| >= MAX_CANDIDATES || !starts then s
    else s.(list := s.list + [Noted(NewCandidate(id, addrStr, addr, false), path)])
  }

  /** Both, with nothing in between. */
  function Added(s: Routes, id: nat, addrStr: string, resolved: Option<Addr>, starts: bool, path: Path): Routes
  {
    if FirstNamed(s.list, addrStr).Some? || |s.list| >= MAX_CANDIDATES || resolved.None?
    then NotedByName(s, addrStr, path)
    else AddedResolved(s, id, addrStr, resolved.value, starts, path)
  }

  predicate HasPunch(list: seq<Candidate>, addr: Addr)
  {
    exists j :: 0 <= j < |list| && list[j].isPunch && list[j].addr == addr
  }

  function PunchAdded(s: Routes, id: nat, addrStr: string, addr: Addr): Routes
  {
    if s.mode == RelayOnly || |s.list| >= MAX_CANDIDATES || HasPunch(s.list, addr) || Punches(s.list) >= MAX_PUNCH
    then s
    else s.(list := s.list + [NewCandidate(id, addrStr, addr, true)])
  }

  function Without(list: seq<Candidate>, id: nat): seq<Candidate>
  {
    if list == [] then [] else if list[0].id == id then list[1..] else [list[0]] + Without(list[1..], id)
  }

  function Removed(s: Routes, id: nat): Routes
  {
    if !Listed(s.list, id) then s
    else
      s.(list := Without(s.list, id),
         best := if s.best == Some(id) then None else s.best,
         prev := if s.prev == Some(id) then None else s.prev,
         dualUntil := if s.prev == Some(id) then None else s.dualUntil)
  }

  lemma {:induction false} PunchesSplit(a: seq<Candidate>, b: seq<Candidate>)
    ensures Punches(a + b) == Punches(a) + Punches(b)
  {
    if b == [] {
      assert a + b == a;
    } else {
      PunchesSplit(a, b[..|b| - 1]);
      assert (a + b)[..|a + b| - 1] == a + b[..|b| - 1];
    }
  }

  lemma {:induction false} WithoutIsCut(list: seq<Candidate>, i: nat)
    requires Distinct(list) && i < |list|
    ensures Without(list, list[i].id) == list[..i] + list[i + 1..]
  {
    if i > 0 {
      WithoutIsCut(list[1..], i - 1);
    }
  }

  lemma CutKeepsListed(list: seq<Candidate>, i: nat, id: nat)
    requires i < |list| && Listed(list, id) && id != list[i].id
    ensures Listed(list[..i] + list[i + 1..], id)
  {
    var cut := list[..i] + list[i + 1..];
    var k :| 0 <= k < |list| && list[k].id == id;
    assert cut[if k < i then k else k - 1].id == id;
  }

  lemma CutPunches(list: seq<Candidate>, i: nat)
    requires i < |list|
    ensures Punches(list[..i] + list[i + 1..]) <= Punches(list)
  {
    PunchesSplit(list[..i], list[i + 1..]);
    assert list == list[..i] + [list[i]] + list[i + 1..];
    PunchesSplit(list[..i] + [list[i]], list[i + 1..]);
    PunchesSplit(list[..i], [list[i]]);
  }

  lemma CutMembers(list: seq<Candidate>, i: nat)
    requires Distinct(list) && i < |list|
    ensures forall c :: c in list[..i] + list[i + 1..] <==> c in list && c.id != list[i].id
  {
    forall c | c in list && c.id != list[i].id ensures c in list[..i] + list[i + 1..] {
      var k :| 0 <= k < |list| && list[k] == c;
      assert (list[..i] + list[i + 1..])[if k < i then k else k - 1] == c;
    }
  }

  lemma NothingUnlisted(s: Routes, id: nat)
    requires Routable(s) && forall c | c in s.list :: c.id != id
    ensures s.best != Some(id) && s.prev != Some(id)
  {
  }

  lemma CutDistinct(list: seq<Candidate>, i: nat)
    requires Distinct(list) && i < |list|
    ensures Distinct(list[..i] + list[i + 1..])
  {
  }

  lemma RemovedIsRoutable(s: Routes, id: nat)
    requires Routable(s)
    ensures Routable(Removed(s, id))
  {
    hide Distinct, Listed;
    if Removed(s, id) != s {
      var i := ListedAt(s.list, id);
      WithoutIsCut(s.list, i);
      CutPunches(s.list, i);
      CutDistinct(s.list, i);
      if s.best.Some? && s.best != Some(id) {
        CutKeepsListed(s.list, i, s.best.value);
      }
      if s.prev.Some? && s.prev != Some(id) {
        CutKeepsListed(s.list, i, s.prev.value);
      }
    }
  }

  lemma ListedAt(list: seq<Candidate>, id: nat) returns (i: nat)
    requires Listed(list, id)
    ensures i < |list| && list[i].id == id
  {
    i :| i < |list| && list[i].id == id;
  }

  lemma GrowsRoutable(s: Routes, c: Candidate)
    requires Routable(s) && |s.list| < MAX_CANDIDATES && !Listed(s.list, c.id)
    requires c.isPunch ==> Punches(s.list) < MAX_PUNCH
    requires forall j | 0 <= j < |s.list| && s.list[j].isPunch == c.isPunch :: s.list[j].addr != c.addr
    ensures Routable(s.(list := s.list + [c]))
  {
    var list := s.list + [c];
    assert list[..|list| - 1] == s.list;
    forall id | Listed(s.list, id) ensures Listed(list, id) {
      var i :| 0 <= i < |s.list| && s.list[i].id == id;
      assert list[i].id == id;
    }
  }

  /** Rewriting a candidate's measurements keeps everything the invariant is about. */
  lemma RewriteIsRoutable(s: Routes, i: nat, c: Candidate)
    requires Routable(s) && i < |s.list|
    requires c.id == s.list[i].id && c.addr == s.list[i].addr && c.isPunch == s.list[i].isPunch
    ensures Routable(s.(list := s.list[i := c]))
  {
    hide Listed;
    RewritePunches(s.list, i, c);
    forall id | Listed(s.list, id) ensures Listed(s.list[i := c], id) {
      RewriteListed(s.list, i, c, id);
    }
  }

  lemma RewritePunches(list: seq<Candidate>, i: nat, c: Candidate)
    requires i < |list| && c.isPunch == list[i].isPunch
    ensures Punches(list[i := c]) == Punches(list)
  {
    assert list == list[..i] + [list[i]] + list[i + 1..];
    assert list[i := c] == list[..i] + [c] + list[i + 1..];
    PunchesSplit(list[..i] + [list[i]], list[i + 1..]);
    PunchesSplit(list[..i], [list[i]]);
    PunchesSplit(list[..i] + [c], list[i + 1..]);
    PunchesSplit(list[..i], [c]);
  }

  lemma RewriteListed(list: seq<Candidate>, i: nat, c: Candidate, id: nat)
    requires i < |list| && c.id == list[i].id && Listed(list, id)
    ensures Listed(list[i := c], id)
  {
    var k := ListedAt(list, id);
    assert list[i := c][k].id == id;
  }

  // ----- Runs -----------------------------------------------------------------------------

  datatype Op =
    | Note(addrStr: string, path: Path)
    | AddResolved(id: nat, addrStr: string, addr: Addr, starts: bool, path: Path)
    | AddPunch(id: nat, addrStr: string, addr: Addr)
    | Observe(at: nat, online: bool, rtt: int, lastActive: Option<int>, path: Path)
    | Remove(id: nat)
    | ChangeMode(mode: Mode)
    | Select(now: int)

  predicate CanDo(s: Routes, op: Op)
  {
    match op
    case AddResolved(id, _, _, _, _) => !Listed(s.list, id)
    case AddPunch(id, _, _) => !Listed(s.list, id)
    case Observe(at, _, _, _, _) => at < |s.list|
    case _ => true
  }

  function Do(s: Routes, op: Op): Routes
  {
    match op
    case Note(addrStr, path) => NotedByName(s, addrStr, path)
    case AddResolved(id, addrStr, addr, starts, path) => AddedResolved(s, id, addrStr, addr, starts, path)
    case AddPunch(id, addrStr, addr) => PunchAdded(s, id, addrStr, addr)
    case Observe(at, online, rtt, lastActive, path) =>
      if at < |s.list| then
        s.(list := s.list[at := s.list[at].(online := online, rtt := rtt, lastActive := lastActive, path := path)])
      else s
    case Remove(id) => Removed(s, id)
    case ChangeMode(mode) => s.(mode := mode)
    case Select(now) => Selected(s, now)
  }

  function AfterOps(s: Routes, ops: seq<Op>): Routes
  {
    if ops == [] then s else Do(AfterOps(s, ops[..|ops| - 1]), ops[|ops| - 1])
  }

  ghost predicate CanDoAll(s: Routes, ops: seq<Op>)
  {
    ops == [] || (CanDoAll(s, ops[..|ops| - 1]) && CanDo(AfterOps(s, ops[..|ops| - 1]), ops[|ops| - 1]))
  }

  lemma NotedIsRoutable(s: Routes, addrStr: string, path: Path)
    requires Routable(s)
    ensures Routable(NotedByName(s, addrStr, path))
  {
    hide Routable;
    var named := FirstNamed(s.list, addrStr);
    if named.Some? {
      RewriteIsRoutable(s, named.value, Noted(s.list[named.value], path));
    }
  }

  lemma AddedIsRoutable(s: Routes, id: nat, addrStr: string, addr: Addr, starts: bool, path: Path)
    requires Routable(s) && !Listed(s.list, id)
    ensures Routable(AddedResolved(s, id, addrStr, addr, starts, path))
  {
    hide Routable;
    var same := FirstAt(s.list, addr);
    if same.Some? {
      RewriteIsRoutable(s, same.value, Noted(s.list[same.value], path));
    } else if |s.list| < MAX_CANDIDATES && starts {
      GrowsRoutable(s, Noted(NewCandidate(id, addrStr, addr, false), path));
    }
  }

  lemma DoIsRoutable(s: Routes, op: Op)
    requires Routable(s) && CanDo(s, op)
    ensures Routable(Do(s, op))
  {
    match op {
      case Note(addrStr, path) => NotedIsRoutable(s, addrStr, path);
      case AddResolved(id, addrStr, addr, starts, path) => AddedIsRoutable(s, id, addrStr, addr, starts, path);
      case AddPunch(id, addrStr, addr) =>
        if PunchAdded(s, id, addrStr, addr) != s {
          GrowsRoutable(s, NewCandidate(id, addrStr, addr, true));
        }
      case Observe(at, online, rtt, lastActive, path) =>
        RewriteIsRoutable(s, at, s.list[at].(online := online, rtt := rtt, lastActive := lastActive, path := path));
      case Remove(id) => RemovedIsRoutable(s, id);
      case ChangeMode(_) =>
      case Select(now) => SelectionIsNearMinimal(s, now);
    }
  }

  /** In every run: best and previous are in the list or nil, at most 64 candidates of which
      at most 8 punch, addresses distinct within the punch ones and within the others. */
  lemma {:induction false} RunIsRoutable(mode: Mode, enableLAN: bool, ops: seq<Op>)
    requires CanDoAll(Routes([], None, None, None, mode, enableLAN), ops)
    ensures Routable(AfterOps(Routes([], None, None, None, mode, enableLAN), ops))
  {
    if ops != [] {
      RunIsRoutable(mode, enableLAN, ops[..|ops| - 1]);
      DoIsRoutable(AfterOps(Routes([], None, None, None, mode, enableLAN), ops[..|ops| - 1]), ops[|ops| - 1]);
    }
  }

  // ----- The client -----------------------------------------------------------------------

  class RouteClient {
    const enableLAN: bool
    var candidates: seq<Candidate>
    var bestCandidate: Option<nat>
    var prevCandidate: Option<nat>
    var dualSendUntil: Option<int>
    var mode: Mode

    function State(): Routes
      reads this
    {
      Routes(candidates, bestCandidate, prevCandidate, dualSendUntil, mode, enableLAN)
    }

    constructor (mode: Mode, enableLAN: bool)
      ensures State() == Routes([], None, None, None, mode, enableLAN)
    {
      this.mode, this.enableLAN := mode, enableLAN;
      candidates, bestCandidate, prevCandidate, dualSendUntil := [], None, None, None;
    }

    method SelectBestCandidate(now: int)
      requires Routable(State())
      modifies this
      ensures State() == Selected(old(State()), now)
      ensures candidates == old(candidates) && mode == old(mode)
      // By the candidates' own labels: what may be selected, and when something is.
      ensures forall c | c in candidates && bestCandidate == Some(c.id) ::
                && c.online && c.lastActive.Some? && now - c.lastActive.value <= 15_000_000_000
                && (mode == RelayOnly ==> c.path == Relay && !c.isPunch)
                && (mode == DirectOnly ==> c.path == Direct || c.path == Punch || (c.path == Lan && enableLAN))
                && (mode == Auto ==> c.path != Unknown && (c.path == Lan ==> enableLAN))
      ensures forall c | && c in candidates && c.online && c.lastActive.Some?
                         && now - c.lastActive.value <= 15_000_000_000 ::
                || (mode == RelayOnly && c.path == Relay && !c.isPunch)
                || (mode != RelayOnly && (c.path == Direct || c.path == Punch || (c.path == Lan && enableLAN)))
                || (mode == Auto && c.path == Relay)
                ==> bestCandidate.Some? && exists d :: d in candidates && bestCandidate == Some(d.id)
    {
      SelectionByLabel(State(), now);
      hide Suits, Heard, Selected, Settled, Fastest, Distinct, Weighed;
      ByLabels(now);
      SelectedIs(State(), now);
      var best := FindBest(now);
      if best.None? {
        bestCandidate, prevCandidate, dualSendUntil := None, None, None;
        return;
      }
      if bestCandidate.Some? {
        LookupListed(candidates, bestCandidate.value);
      }
      SwitchTo(candidates[best.value], now);
    }

    lemma ByLabels(now: int)
      ensures forall c :: Suits(mode, enableLAN, c) && Heard(c, now) ==>
                && c.online && c.lastActive.Some? && now - c.lastActive.value <= 15_000_000_000
                && (mode == RelayOnly ==> c.path == Relay && !c.isPunch)
                && (mode == DirectOnly ==> c.path == Direct || c.path == Punch || (c.path == Lan && enableLAN))
                && (mode == Auto ==> c.path != Unknown && (c.path == Lan ==> enableLAN))
      ensures forall c: Candidate :: c.online && c.lastActive.Some? && now - c.lastActive.value <= 15_000_000_000 ==>
                || (mode == RelayOnly && c.path == Relay && !c.isPunch)
                || (mode != RelayOnly && (c.path == Direct || c.path == Punch || (c.path == Lan && enableLAN)))
                || (mode == Auto && c.path == Relay)
                ==> Suits(mode, enableLAN, c) && Heard(c, now)
    {
    }

    /** The scan: the first of the fastest candidates that may be used. */
    method FindBest(now: int) returns (best: Option<nat>)
      ensures best == Fastest(State(), now, |candidates|)
    {
      best := None;
      var bestEffective := 999 * SECOND;
      for i := 0 to |candidates|
        invariant best == Fastest(State(), now, i)
        invariant best.Some? ==> bestEffective == Effective(candidates[best.value])
      {
        var c := candidates[i];
        if !Allowed(mode, enableLAN, c.isPunch, c.path) {
          continue;
        }
        if c.online && c.lastActive.Some? && now - c.lastActive.value <= LIVENESS {
          var effective := c.rtt;
          if c.path == Lan {
            effective := Trunc(effective, 10);
          }
          if best.None? || effective < bestEffective {
            best, bestEffective := Some(i), effective;
          }
        }
      }
    }

    /** The second half of selection: moves to the fastest candidate unless hysteresis holds. */
    method SwitchTo(chosen: Candidate, now: int)
      requires bestCandidate.Some? ==> Lookup(candidates, bestCandidate.value).Some?
      requires bestCandidate.Some? ==> Lookup(candidates, bestCandidate.value).value.id == bestCandidate.value
      modifies this
      ensures State() == Settled(old(State()), chosen, now)
    {
      if bestCandidate == Some(chosen.id) {
        return;
      }
      var leaving := None;
      if bestCandidate.Some? {
        leaving := Lookup(candidates, bestCandidate.value);
        var curr := leaving.value;
        var dead := !Allowed(mode, enableLAN, curr.isPunch, curr.path) || !curr.online
                    || curr.lastActive.None? || now - curr.lastActive.value > LIVENESS;
        if !dead {
          if chosen.path != Lan && curr.path == Lan {
            return;
          }
          if chosen.path != Lan && curr.path != Lan {
            var improvement := curr.rtt - chosen.rtt;
            if improvement < 5 * MS && improvement < Trunc(curr.rtt, 7) {
              return;
            }
          }
        }
      }
      bestCandidate := Some(chosen.id);
      if leaving.Some? && leaving.value.online
         && Allowed(mode, enableLAN, leaving.value.isPunch, leaving.value.path)
         && Allowed(mode, enableLAN, chosen.isPunch, chosen.path) {
        prevCandidate, dualSendUntil := Some(leaving.value.id), Some(now + DUAL_WINDOW);
      }
    }

    /** Normalizes, looks the name up, resolves and adds. `resolve` is the name service and
        `starts` whether a reader could be started; without one the candidate is dropped again. */
    method AddCandidate(ips: Endpoints.IPs, id: nat, endpoint: string, resolve: string -> Option<Addr>, starts: bool,
                        path: Path)
      returns (found: Option<nat>, added: bool)
      modifies this`candidates
      ensures var name := Endpoints.Normalize(ips, endpoint, DEFAULT_SERVER_PORT);
              if name.Err? then State() == old(State()) && found == None
              else
                && State() == Added(old(State()), id, name.value, resolve(name.value), starts, path)
                && (found.Some? ==>
                      && found.value < |candidates|
                      && (candidates[found.value].addrStr == name.value
                          || Some(candidates[found.value].addr) == resolve(name.value)))
      ensures added <==> |candidates| > |old(candidates)|
    {
      hide Endpoints.Normalize;
      found, added := None, false;
      var name := Endpoints.Normalize(ips, endpoint, DEFAULT_SERVER_PORT);
      if name.Err? {
        return;
      }
      var atLimit;
      found, atLimit := NoteByName(name.value, path);
      if found.Some? || atLimit {
        return;
      }
      var resolved := resolve(name.value);
      if resolved.Some? {
        found, added := AddResolved(id, name.value, resolved.value, starts, path);
      }
    }

    method NoteByName(addrStr: string, path: Path) returns (found: Option<nat>, atLimit: bool)
      modifies this`candidates
      ensures State() == NotedByName(old(State()), addrStr, path)
      ensures found == FirstNamed(old(candidates), addrStr) && |candidates| == |old(candidates)|
      ensures found.Some? ==> candidates[found.value].addrStr == addrStr
      ensures found.None? ==> (atLimit <==> |candidates| >= 64)
      ensures Relabelled(old(candidates), candidates, found, path)
    {
      for i := 0 to |candidates|
        invariant candidates == old(candidates)
        invariant forall j | 0 <= j < i :: candidates[j].addrStr != addrStr
      {
        if candidates[i].addrStr == addrStr {
          candidates := candidates[i := Noted(candidates[i], path)];
          return Some(i), false;
        }
      }
      return None, |candidates| >= MAX_CANDIDATES;
    }

    method AddResolved(id: nat, addrStr: string, addr: Addr, starts: bool, path: Path)
      returns (found: Option<nat>, added: bool)
      modifies this`candidates
      ensures State() == AddedResolved(old(State()), id, addrStr, addr, starts, path)
      ensures added <==> |candidates| > |old(candidates)|
      ensures found.Some? ==> found.value < |candidates| && candidates[found.value].addr == addr
      ensures added <==> |old(candidates)| < 64 && starts && forall c | c in old(candidates) :: c.addr != addr
      ensures added ==>
                candidates == old(candidates) + [Candidate(id, addrStr, addr, false, false, 999_000_000, None,
                                                           if path == Relay then Relay else Unknown)]
      ensures !added ==> Relabelled(old(candidates), candidates, found, path)
    {
      found, added := None, false;
      for i := 0 to |candidates|
        invariant candidates == old(candidates)
        invariant forall j | 0 <= j < i :: candidates[j].addr != addr
      {
        if candidates[i].addr == addr {
          candidates := candidates[i := Noted(candidates[i], path)];
          found := Some(i);
          return;
        }
      }
      if |candidates| >= MAX_CANDIDATES {
        return;
      }
      candidates := candidates + [Noted(NewCandidate(id, addrStr, addr, false), path)];
      if !starts {
        candidates := candidates[..|candidates| - 1];
        return;
      }
      found, added := Some(|candidates| - 1), true;
    }

    method AddPunchCandidate(id: nat, addrStr: string, addr: Addr) returns (added: bool)
      modifies this`candidates
      ensures State() == PunchAdded(old(State()), id, addrStr, addr)
      ensures added <==> State() != old(State())
      ensures added <==> && mode != RelayOnly && |old(candidates)| < 64 && Punches(old(candidates)) < 8
                         && forall c | c in old(candidates) && c.isPunch :: c.addr != addr
      ensures candidates == old(candidates)
                            + if !added then []
                              else [Candidate(id, addrStr, addr, true, false, 999_000_000, None, Punch)]
    {
      added := false;
      if mode == RelayOnly || |candidates| >= MAX_CANDIDATES {
        return;
      }
      var punchCount := 0;
      for i := 0 to |candidates|
        invariant punchCount == Punches(candidates[..i])
        invariant !HasPunch(candidates[..i], addr)
      {
        assert candidates[..i + 1][..i] == candidates[..i];
        if candidates[i].isPunch {
          punchCount := punchCount + 1;
        }
        if candidates[i].isPunch && candidates[i].addr == addr {
          return;
        }
      }
      assert candidates[..|candidates|] == candidates;
      if punchCount >= MAX_PUNCH {
        return;
      }
      candidates := candidates + [NewCandidate(id, addrStr, addr, true)];
      added := true;
    }

    method RemoveCandidate(id: nat, now: int)
      requires Routable(State())
      modifies this
      ensures State() == Selected(Removed(old(State()), id), now)
      ensures bestCandidate != Some(id) && prevCandidate != Some(id)
      ensures forall c :: c in candidates <==> c in old(candidates) && c.id != id
    {
      hide Routable, Removed, Selected, Distinct, Listed, Punches;
      RemovedIsRoutable(State(), id);
      Unlist(id);
      SelectionIsNearMinimal(State(), now);
      SelectBestCandidate(now);
      NothingUnlisted(State(), id);
    }

    method Unlist(id: nat)
      requires Routable(State())
      modifies this
      ensures State() == Removed(old(State()), id)
      ensures forall c :: c in candidates <==> c in old(candidates) && c.id != id
    {
      for i := 0 to |candidates|
        invariant State() == old(State())
        invariant forall j | 0 <= j < i :: candidates[j].id != id
      {
        if candidates[i].id == id {
          WithoutIsCut(candidates, i);
          CutMembers(candidates, i);
          candidates := candidates[..i] + candidates[i + 1..];
          if bestCandidate == Some(id) {
            bestCandidate := None;
          }
          if prevCandidate == Some(id) {
            prevCandidate, dualSendUntil := None, None;
          }
          return;
        }
      }
    }

    /** Where one game datagram goes: to the active candidate if its label suits the mode, and inside
        the window also to the one before it, if that is another one and suits the mode. */
    method SendTargets(now: int) returns (targets: seq<nat>)
      requires Routable(State())
      ensures targets == Targets(State(), now)
      ensures forall c | && c in candidates && c.id in targets ::
                && (mode == RelayOnly ==> c.path == Relay && !c.isPunch)
                && (mode == DirectOnly ==> c.path == Direct || c.path == Punch || (c.path == Lan && enableLAN))
                && (mode == Auto ==> c.path != Unknown && (c.path == Lan ==> enableLAN))
      ensures forall a, b | && a in candidates && bestCandidate == Some(a.id)
                            && b in candidates && prevCandidate == Some(b.id) ::
                if !Suits(mode, enableLAN, a) then targets == []
                else if b.id != a.id && Suits(mode, enableLAN, b) && dualSendUntil.Some? && now < dualSendUntil.value
                then targets == [a.id, b.id] else targets == [a.id]
      ensures forall a | a in candidates && bestCandidate == Some(a.id) && prevCandidate.None? ::
                targets == if Suits(mode, enableLAN, a) then [a.id] else []
      ensures bestCandidate.None? ==> targets == []
    {
      TargetsByLabel(State(), now);
      targets := [];
      if bestCandidate.Some? {
        LookupListed(candidates, bestCandidate.value);
        var active := Lookup(candidates, bestCandidate.value).value;
        if Allowed(mode, enableLAN, active.isPunch, active.path) {
          targets := [active.id];
          if prevCandidate.Some? && prevCandidate != bestCandidate {
            LookupListed(candidates, prevCandidate.value);
            var before := Lookup(candidates, prevCandidate.value).value;
            if Allowed(mode, enableLAN, before.isPunch, before.path)
               && dualSendUntil.Some? && now < dualSendUntil.value {
              targets := targets + [before.id];
            }
          }
        }
      }
    }
  }
}
