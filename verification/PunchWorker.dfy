/** The punch worker of one session (pkg/server/server.go:151-161, 768-822, 905-931) under
    every interleaving of PunchInit handlers, the worker, data-driven expiry and Stop. */
module PunchWorker {
  import opened Bytes
  import opened ServerModel

  const BURST: nat := 5

  /** Where a task is. A handler that starts the worker goes on as the worker. */
  datatype Pc =
    | Published(start: bool)  // a handler that left the lock, about to wake the worker
    | Starting                // about to register the worker task
    | Refused                 // startTask said no, about to clear the flag
    | Waiting                 // the worker at its select
    | Bursting(k: nat)        // about to make read k of a burst
    | Pausing(k: nat)         // between two probes of a burst
    | Leaving                 // saw the context end, about to clear the flag
    | Done

  datatype Session = Session(
    flag: bool,               // punchWorker
    token: bool,              // punchWake, a channel of capacity one
    target: Option<Addr>,
    expiry: int,
    closed: bool,
    stopping: bool,
    cancelled: bool,
    clock: int,
    tasks: map<nat, Pc>,
    published: nat,           // targets published so far
    seen: nat)                // the latest of them a burst has read

  datatype Step =
    | PunchInit(task: nat, to: Addr)
    | Run(task: nat)          // the task's next step, where it has only one
    | SeeCancel(task: nat)    // the select picks the ended context,
    | SeeWake(task: nat)      // the wake-up,
    | SeeTick(task: nat)      // or the ticker
    | DataFrom(src: Addr)     // game data from the punched endpoint
    | Elapse(now: int)
    | BeginStop
    | Cancel
    | CloseSession

  function Initial(now: int): Session
  {
    Session(false, false, None, 0, false, false, false, now, map[], 0, 0)
  }

  predicate Active(s: Session)
  {
    s.target.Some? && s.clock < s.expiry && !s.closed
  }

  predicate Enabled(s: Session, e: Step)
  {
    match e
    case PunchInit(t, _) => t !in s.tasks
    case Run(t) => t in s.tasks && s.tasks[t] != Waiting && s.tasks[t] != Done
    case SeeCancel(t) => t in s.tasks && (s.tasks[t] == Waiting || s.tasks[t].Pausing?) && s.cancelled
    case SeeWake(t) => t in s.tasks && s.tasks[t] == Waiting && s.token
    case SeeTick(t) => t in s.tasks && s.tasks[t] == Waiting
    case Elapse(now) => s.clock <= now
    case Cancel => s.stopping
    case _ => true
  }

  function Put(s: Session, t: nat, pc: Pc): Session
  {
    s.(tasks := s.tasks[t := pc])
  }

  function Next(s: Session, e: Step): Session
    requires Enabled(s, e)
  {
    match e
    case PunchInit(t, to) =>
      Put(s, t, Published(!s.flag)).(target := Some(to), expiry := s.clock + PUNCH_WINDOW, flag := true,
                                     published := s.published + 1)
    case Run(t) => RunTask(s, t)
    case SeeCancel(t) => Put(s, t, if s.tasks[t] == Waiting then Leaving else Waiting)
    case SeeWake(t) => Put(s, t, Bursting(0)).(token := false)
    case SeeTick(t) => if Active(s) then s else Put(s, t, Done).(flag := false)
    case DataFrom(src) => if s.target == Some(src) then s.(expiry := s.clock) else s
    case Elapse(now) => s.(clock := now)
    case BeginStop => s.(stopping := true)
    case Cancel => s.(cancelled := true)
    case CloseSession => s.(closed := true)
  }

  /** Where a task's next step takes it. */
  function Goes(s: Session, pc: Pc): Pc
  {
    match pc
    case Published(start) => if start then Starting else Done
    case Starting => if s.stopping then Refused else Waiting
    case Refused => Done
    case Bursting(k) => if Active(s) && k + 1 < BURST then Pausing(k + 1) else Waiting
    case Pausing(k) => Bursting(k)
    case Leaving => Done
    case Waiting => Waiting
    case Done => Done
  }

  /** A handler sends its wake-up, a burst reads the latest target, an exit clears the flag. */
  function RunTask(s: Session, t: nat): Session
    requires t in s.tasks
  {
    var pc := s.tasks[t];
    Put(s, t, Goes(s, pc)).(
      token := s.token || pc.Published?,
      flag := s.flag && pc != Refused && pc != Leaving,
      seen := if pc.Bursting? then s.published else s.seen)
  }

  function After(start: int, run: seq<Step>): Session
  {
    if run == [] then Initial(start)
    else
      var s := After(start, run[..|run| - 1]);
      if Enabled(s, run[|run| - 1]) then Next(s, run[|run| - 1]) else s
  }

  predicate IsRun(start: int, run: seq<Step>)
  {
    run == [] || (IsRun(start, run[..|run| - 1]) && Enabled(After(start, run[..|run| - 1]), run[|run| - 1]))
  }

  // ----- The invariant --------------------------------------------------------------------

  /** A worker, or a handler committed to starting or giving up one. */
  predicate Holds(pc: Pc)
  {
    match pc
    case Published(start) => start
    case Done => false
    case _ => true
  }

  function Holders(s: Session): set<nat>
  {
    set t | t in s.tasks && Holds(s.tasks[t])
  }

  /** The latest target was read by a burst, or something that leads to its reading is left. */
  ghost predicate WakeUpKept(s: Session)
  {
    s.seen == s.published || s.token || exists t :: t in s.tasks && (s.tasks[t].Published? || s.tasks[t].Bursting?)
  }

  ghost predicate LateExit(s: Session, t: nat)
    requires t in s.tasks
  {
    s.tasks[t] == Refused || s.tasks[t] == Leaving ==> s.stopping
  }

  ghost predicate FlagCounts(s: Session)
  {
    if s.flag then exists t :: Holders(s) == {t} else Holders(s) == {}
  }

  ghost predicate ExitsLate(s: Session)
  {
    forall t | t in s.tasks :: LateExit(s, t)
  }

  ghost predicate Invariant(s: Session)
  {
    && FlagCounts(s)
    && (Active(s) && !s.stopping ==> s.flag)
    && ExitsLate(s)
    && (s.cancelled ==> s.stopping)
    && s.seen <= s.published
    && WakeUpKept(s)
  }

  /** Changing one task's place changes the holders by that task only. */
  lemma HoldersAfter(s: Session, s': Session, t: nat, pc: Pc)
    requires s'.tasks == s.tasks[t := pc]
    ensures Holders(s') == if Holds(pc) then Holders(s) + {t} else Holders(s) - {t}
  {
  }

  lemma PutKeeps(s: Session, t: nat, pc: Pc)
    requires Invariant(s) && t in s.tasks && (Holds(s.tasks[t]) <==> Holds(pc))
    ensures Holders(Put(s, t, pc)) == Holders(s)
  {
    HoldersAfter(s, Put(s, t, pc), t, pc);
  }

  /** A holder that gives up the flag was the only one. */
  lemma GivesUp(s: Session, s': Session, t: nat)
    requires Invariant(s) && t in s.tasks && Holds(s.tasks[t])
    requires s'.tasks == s.tasks[t := Done]
    ensures s.flag && Holders(s') == {}
  {
    HoldersAfter(s, s', t, Done);
    assert t in Holders(s);
    var u :| Holders(s) == {u};
    assert u == t;
  }

  lemma PunchInitKeeps(s: Session, t: nat, to: Addr)
    requires Invariant(s) && Enabled(s, PunchInit(t, to))
    ensures Invariant(Next(s, PunchInit(t, to)))
  {
    var s' := Next(s, PunchInit(t, to));
    HoldersAfter(s, s', t, Published(!s.flag));
    assert t !in Holders(s);
    if s.flag {
      assert Holders(s') == Holders(s);
    } else {
      assert Holders(s') == {t};
    }
    assert s'.tasks[t].Published?;
    forall u | u in s'.tasks ensures LateExit(s', u) {
      assert u != t ==> LateExit(s, u);
    }
  }

  lemma WakeUpSurvives(s: Session, s': Session, t: nat)
    requires WakeUpKept(s) && t in s.tasks && s'.published == s.published && s'.seen == s.seen
    requires s.token ==> s'.token || (t in s'.tasks && s'.tasks[t].Bursting?)
    requires forall u | u in s.tasks && u != t :: u in s'.tasks && s'.tasks[u] == s.tasks[u]
    requires s.tasks[t].Published? || s.tasks[t].Bursting? ==> s'.token
    ensures WakeUpKept(s')
  {
    if s.seen != s.published && !s.token {
      var u :| u in s.tasks && (s.tasks[u].Published? || s.tasks[u].Bursting?);
      assert u != t ==> s'.tasks[u] == s.tasks[u];
    }
  }

  lemma ExitsStayLate(s: Session, s': Session, t: nat)
    requires Invariant(s) && t in s.tasks && s'.tasks.Keys == s.tasks.Keys && s'.stopping == s.stopping
    requires forall u | u in s.tasks && u != t :: s'.tasks[u] == s.tasks[u]
    requires LateExit(s', t)
    ensures ExitsLate(s')
  {
    forall u | u in s'.tasks ensures LateExit(s', u) {
      assert LateExit(s, u);
    }
  }

  lemma RunHolders(s: Session, t: nat)
    requires Invariant(s) && Enabled(s, Run(t))
    ensures FlagCounts(RunTask(s, t))
    ensures RunTask(s, t).flag != s.flag ==> s.stopping
  {
    hide WakeUpKept, Active;
    var s' := RunTask(s, t);
    assert LateExit(s, t);
    if s.tasks[t] == Refused || s.tasks[t] == Leaving {
      GivesUp(s, s', t);
    } else {
      HoldersAfter(s, s', t, s'.tasks[t]);
      assert t in Holders(s) <==> Holds(s.tasks[t]);
    }
  }

  lemma ReadKeeps(s: Session)
    requires s.seen == s.published
    ensures WakeUpKept(s)
  {
  }

  lemma RunFrame(s: Session, t: nat)
    requires t in s.tasks
    ensures var s' := RunTask(s, t);
            && s'.tasks.Keys == s.tasks.Keys && (forall u | u in s.tasks && u != t :: s'.tasks[u] == s.tasks[u])
            && Active(s') == Active(s)
            && s'.stopping == s.stopping && s'.cancelled == s.cancelled && s'.published == s.published
            && (s'.seen == if s.tasks[t].Bursting? then s.published else s.seen)
            && (s.token || s.tasks[t].Published? ==> s'.token)
  {
  }

  lemma LateStays(s: Session, t: nat)
    requires ExitsLate(s) && t in s.tasks
    ensures LateExit(RunTask(s, t), t)
  {
    assert LateExit(s, t);
  }

  lemma RunKeeps(s: Session, t: nat)
    requires Invariant(s) && Enabled(s, Run(t))
    ensures Invariant(Next(s, Run(t)))
  {
    hide Active, FlagCounts, ExitsLate, WakeUpKept, RunTask;
    var s' := RunTask(s, t);
    RunFrame(s, t);
    RunHolders(s, t);
    LateStays(s, t);
    ExitsStayLate(s, s', t);
    if s.tasks[t].Bursting? {
      ReadKeeps(s');
    } else {
      WakeUpSurvives(s, s', t);
    }
  }

  lemma SelectKeeps(s: Session, e: Step)
    requires Invariant(s) && Enabled(s, e) && (e.SeeCancel? || e.SeeWake? || e.SeeTick?)
    ensures Invariant(Next(s, e))
  {
    var s', t := Next(s, e), e.task;
    ExitsStayLate(s, s', t);
    if e.SeeTick? {
      if !Active(s) {
        GivesUp(s, s', t);
      }
    } else {
      PutKeeps(s, t, s'.tasks[t]);
      assert Holders(s') == Holders(s);
    }
    WakeUpSurvives(s, s', t);
  }

  lemma NextKeepsInvariant(s: Session, e: Step)
    requires Invariant(s) && Enabled(s, e)
    ensures Invariant(Next(s, e))
  {
    match e {
      case PunchInit(t, to) => PunchInitKeeps(s, t, to);
      case Run(t) => RunKeeps(s, t);
      case SeeCancel(_) => SelectKeeps(s, e);
      case SeeWake(_) => SelectKeeps(s, e);
      case SeeTick(_) => SelectKeeps(s, e);
      case _ =>
        var s' := Next(s, e);
        assert s'.tasks == s.tasks && Holders(s') == Holders(s);
        forall u | u in s'.tasks ensures LateExit(s', u) {
          assert LateExit(s, u);
        }
    }
  }

  lemma {:induction false} Invariantly(start: int, run: seq<Step>)
    requires IsRun(start, run)
    ensures Invariant(After(start, run))
  {
    if run == [] {
      assert Holders(Initial(start)) == {};
    } else {
      Invariantly(start, run[..|run| - 1]);
      NextKeepsInvariant(After(start, run[..|run| - 1]), run[|run| - 1]);
    }
  }

  // ----- The theorems ---------------------------------------------------------------------

  predicate IsWorker(pc: Pc)
  {
    pc == Waiting || pc.Bursting? || pc.Pausing? || pc == Leaving
  }

  /** In every run: exactly one task is the worker or about to start it when the flag is set,
      and none when it is not; so two workers never run at once. */
  lemma OneWorker(start: int, run: seq<Step>)
    requires IsRun(start, run)
    ensures |Holders(After(start, run))| == if After(start, run).flag then 1 else 0
    ensures var s := After(start, run);
            forall t, u | t in s.tasks && u in s.tasks && IsWorker(s.tasks[t]) && IsWorker(s.tasks[u]) :: t == u
  {
    Invariantly(start, run);
    var s := After(start, run);
    forall t, u | t in s.tasks && u in s.tasks && IsWorker(s.tasks[t]) && IsWorker(s.tasks[u]) ensures t == u {
      assert t in Holders(s) && u in Holders(s);
    }
  }

  /** An open punch window on a server that is not stopping has a worker, or a handler that is
      about to start one and cannot be refused unless the server stops first. */
  lemma OpenWindowIsServed(start: int, run: seq<Step>) returns (t: nat)
    requires IsRun(start, run) && Active(After(start, run)) && !After(start, run).stopping
    ensures var s := After(start, run);
            && t in s.tasks && Holders(s) == {t}
            && (s.tasks[t] == Waiting || s.tasks[t].Bursting? || s.tasks[t].Pausing?
                || s.tasks[t] == Starting || s.tasks[t] == Published(true))
  {
    Invariantly(start, run);
    var s := After(start, run);
    t :| Holders(s) == {t};
    assert t in Holders(s) && LateExit(s, t);
  }

  ghost predicate AllSent(s: Session)
  {
    forall t | t in s.tasks :: !s.tasks[t].Published?
  }

  /** No wake-up is lost: once every handler has sent its own, the latest target of an open
      window was read by a burst, or the token or a burst that will read it is still there. */
  lemma NoLostWakeUp(start: int, run: seq<Step>)
    requires IsRun(start, run)
    requires AllSent(After(start, run))
    ensures var s := After(start, run);
            s.seen == s.published || s.token || exists t :: t in Holders(s) && s.tasks[t].Bursting?
  {
    Invariantly(start, run);
    var s := After(start, run);
    if s.seen != s.published && !s.token {
      var t :| t in s.tasks && (s.tasks[t].Published? || s.tasks[t].Bursting?);
      assert !s.tasks[t].Published?;
      assert t in Holders(s);
    }
  }

  /** The task's own steps: its next one, or its select picking the wake-up. */
  predicate OwnSteps(steps: seq<Step>, t: nat)
  {
    forall e | e in steps :: e == Run(t) || e == SeeWake(t)
  }

  lemma OneStep(start: int, run: seq<Step>, e: Step)
    requires IsRun(start, run) && Enabled(After(start, run), e)
    ensures IsRun(start, run + [e]) && After(start, run + [e]) == Next(After(start, run), e)
  {
    assert (run + [e])[..|run + [e]| - 1] == run;
  }

  /** In a burst or a pause of one, at most two steps lead to a read. */
  lemma BurstReads(start: int, run: seq<Step>, t: nat) returns (more: seq<Step>)
    requires IsRun(start, run) && t in After(start, run).tasks
    requires After(start, run).tasks[t].Bursting? || After(start, run).tasks[t].Pausing?
    ensures IsRun(start, run + more) && OwnSteps(more, t)
    ensures |more| == if After(start, run).tasks[t].Bursting? then 1 else 2
    ensures After(start, run + more).seen == After(start, run + more).published
  {
    OneStep(start, run, Run(t));
    more := [Run(t)];
    if After(start, run).tasks[t].Pausing? {
      OneStep(start, run + [Run(t)], Run(t));
      more := [Run(t), Run(t)];
      assert run + more == run + [Run(t)] + [Run(t)];
    }
  }

  /** A worker that finds the token begins a burst. */
  lemma WakeReads(start: int, run: seq<Step>, t: nat) returns (more: seq<Step>)
    requires IsRun(start, run) && t in After(start, run).tasks
    requires After(start, run).tasks[t] == Waiting && After(start, run).token
    ensures IsRun(start, run + more) && OwnSteps(more, t) && |more| == 2
    ensures After(start, run + more).seen == After(start, run + more).published
  {
    hide IsRun, After, Holders;
    OneStep(start, run, SeeWake(t));
    var reading := BurstReads(start, run + [SeeWake(t)], t);
    more := [SeeWake(t)] + reading;
    assert run + more == run + [SeeWake(t)] + reading;
  }

  /** And so the latest target is read: from any reachable state with an open window, no stop and
      every handler past its wake-up, at most three steps of the one task that holds the worker's
      place, wherever it is, make a burst read what was published last. */
  lemma LatestTargetIsRead(start: int, run: seq<Step>) returns (t: nat, more: seq<Step>)
    requires IsRun(start, run) && AllSent(After(start, run))
    requires Active(After(start, run)) && !After(start, run).stopping
    ensures Holders(After(start, run)) == {t}
    ensures IsRun(start, run + more) && OwnSteps(more, t) && |more| <= 3
    ensures After(start, run + more).seen == After(start, run + more).published
  {
    hide IsRun, After, Holders;
    var s := After(start, run);
    t := OpenWindowIsServed(start, run);
    assert !s.tasks[t].Published?;
    NoLostWakeUp(start, run);
    if s.seen == s.published {
      more := [];
      assert run + more == run;
    } else if s.tasks[t].Bursting? || s.tasks[t].Pausing? {
      more := BurstReads(start, run, t);
    } else if s.tasks[t] == Waiting {
      more := WakeReads(start, run, t);
    } else {
      OneStep(start, run, Run(t));
      var rest := WakeReads(start, run + [Run(t)], t);
      more := [Run(t)] + rest;
      assert run + more == run + [Run(t)] + rest;
    }
  }
}
