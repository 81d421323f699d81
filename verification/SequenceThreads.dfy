/** NextSeq (pkg/security/session.go:289-314) as load and compare-and-swap steps of any
    number of threads, each of which seals with the number it got. */
module SequenceThreads {
  import opened Bytes
  import opened SecureSession

  datatype Pc =
    | Idle
    | Checked            // saw neither closed nor exhausted
    | Loaded(current: U32)
    | Full               // loaded the maximum, about to set exhausted
    | Got(number: U32)   // returned, about to seal with it

  datatype State = State(
    sendSeq: U32,
    closed: bool,
    exhausted: bool,
    pcs: map<nat, Pc>,
    issued: seq<U32>,    // numbers returned, in order
    used: seq<U32>)      // numbers sealed with, in order

  datatype Event = Run(thread: nat) | CloseSession

  const INITIAL: State := State(0, false, false, map[], [], [])

  function At(s: State, t: nat): Pc
  {
    if t in s.pcs then s.pcs[t] else Idle
  }

  function Step(s: State, e: Event): State
  {
    match e
    case CloseSession => s.(closed := true)
    case Run(t) =>
      match At(s, t)
      case Idle => if s.closed || s.exhausted then s else s.(pcs := s.pcs[t := Checked])
      case Checked => s.(pcs := s.pcs[t := if s.sendSeq == MAX_U32 then Full else Loaded(s.sendSeq)])
      case Loaded(current) =>
        if s.sendSeq == current && current < MAX_U32 then
          s.(sendSeq := current + 1, pcs := s.pcs[t := Got(current + 1)], issued := s.issued + [current + 1])
        else s.(pcs := s.pcs[t := Idle])
      case Full => s.(exhausted := true, pcs := s.pcs[t := Idle])
      case Got(n) => s.(used := s.used + [n], pcs := s.pcs[t := Idle])
  }

  function After(run: seq<Event>): State
  {
    if run == [] then INITIAL else Step(After(run[..|run| - 1]), run[|run| - 1])
  }

  ghost predicate ThreadInvariant(s: State, pc: Pc)
  {
    match pc
    case Loaded(c) => c <= s.sendSeq && c < MAX_U32
    case Full => s.sendSeq == MAX_U32
    case Got(n) => 1 <= n <= s.sendSeq && n !in s.used
    case _ => true
  }

  ghost predicate Invariant(s: State)
  {
    && |s.issued| == s.sendSeq
    && (forall i | 0 <= i < |s.issued| :: s.issued[i] == i + 1)
    && (s.exhausted ==> s.sendSeq == MAX_U32)
    && (forall t :: ThreadInvariant(s, At(s, t)))
    && (forall t, u | t != u && At(s, t).Got? && At(s, u).Got? :: At(s, t).number != At(s, u).number)
    && (forall i | 0 <= i < |s.used| :: 1 <= s.used[i] <= s.sendSeq)
    && (forall i, j | 0 <= i < j < |s.used| :: s.used[i] != s.used[j])
  }

  lemma StepThread(s: State, e: Event, u: nat)
    requires Invariant(s)
    ensures ThreadInvariant(Step(s, e), At(Step(s, e), u))
    ensures e != Run(u) ==> At(Step(s, e), u) == At(s, u)
  {
    assert ThreadInvariant(s, At(s, u));
    if e.Run? {
      assert ThreadInvariant(s, At(s, e.thread));
    }
  }

  lemma StepPair(s: State, e: Event, t: nat, u: nat)
    requires Invariant(s) && t != u
    requires At(Step(s, e), t).Got? && At(Step(s, e), u).Got?
    ensures At(Step(s, e), t).number != At(Step(s, e), u).number
  {
    StepThread(s, e, t);
    StepThread(s, e, u);
    assert ThreadInvariant(s, At(s, t)) && ThreadInvariant(s, At(s, u));
  }

  lemma StepKeepsInvariant(s: State, e: Event)
    requires Invariant(s)
    ensures Invariant(Step(s, e))
  {
    var s' := Step(s, e);
    forall u ensures ThreadInvariant(s', At(s', u)) {
      StepThread(s, e, u);
    }
    forall t, u | t != u && At(s', t).Got? && At(s', u).Got? ensures At(s', t).number != At(s', u).number {
      StepPair(s, e, t, u);
    }
    if e.Run? {
      assert ThreadInvariant(s, At(s, e.thread));
    }
  }

  lemma {:induction false} Invariantly(run: seq<Event>)
    ensures Invariant(After(run))
  {
    if run != [] {
      Invariantly(run[..|run| - 1]);
      StepKeepsInvariant(After(run[..|run| - 1]), run[|run| - 1]);
    }
  }

  /** In every run: the numbers returned are exactly 1..sendSeq, each once and in order, and
      no nonce is ever used twice to seal in this session and direction. */
  lemma NumbersAreUnique(run: seq<Event>, id: U64)
    ensures var s := After(run);
            && s.issued == seq(s.sendSeq, i requires 0 <= i < s.sendSeq => i + 1)
            && (forall i, j | 0 <= i < j < |s.used| :: MakeNonce(id, s.used[i]) != MakeNonce(id, s.used[j]))
            && (forall i | 0 <= i < |s.used| :: s.used[i] in s.issued)
  {
    Invariantly(run);
    var s := After(run);
    forall i, j | 0 <= i < j < |s.used| ensures MakeNonce(id, s.used[i]) != MakeNonce(id, s.used[j]) {
      if MakeNonce(id, s.used[i]) == MakeNonce(id, s.used[j]) {
        NonceIsInjective(id, s.used[i], id, s.used[j]);
      }
    }
    forall i | 0 <= i < |s.used| ensures s.used[i] in s.issued {
      assert s.issued[s.used[i] - 1] == s.used[i];
    }
  }

  /** Exhaustion is permanent: once 2^32-1 was handed out, nothing more ever is. */
  lemma {:induction false} ExhaustionIsPermanent(run: seq<Event>, more: seq<Event>)
    requires After(run).sendSeq == MAX_U32
    ensures After(run + more).sendSeq == MAX_U32
    ensures After(run + more).issued == After(run).issued
    decreases |more|
  {
    if more == [] {
      assert run + more == run;
    } else {
      var before := more[..|more| - 1];
      ExhaustionIsPermanent(run, before);
      assert (run + more)[..|run + more| - 1] == run + before;
      Invariantly(run + before);
    }
  }

  /** A compare-and-swap fails only because another thread got a number since the load. */
  lemma FailedSwapMeansProgress(run: seq<Event>, t: nat)
    requires At(After(run), t).Loaded?
    ensures var s := After(run);
            Step(s, Run(t)).issued == s.issued ==> |s.issued| > At(s, t).current
  {
    Invariantly(run);
  }
}
