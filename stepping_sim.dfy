/**
 * stepping_sim: the executor that replays commands without timing.  A
 * terminate(n) request arriving from another thread is modelled as a
 * scripted input: `terms[t] == n` means terminate(n) is called while tick t
 * is being executed (from the step callback).  The answers of the
 * on_execution_break callback are scripted by tick index as well.
 */
module SimExecutor {

  import opened DistanceT
  import opened SteppingCommands
  import opened Ticks
  import opened Stepping

  /** The state of the exec loop after some passes: the ticks executed,
      whether execution_terminated was thrown, the ticks at which
      on_execution_break was called, and the pending-termination counter. */
  datatype SimState = SimState(ticks: nat, stopped: bool, breaks: seq<nat>, te: int)

  /** The pending counter after the check before a tick that goes ahead:
      1 (answered non-zero) becomes 0, a larger one is decremented. */
  function SimCheck(te: int): int
  {
    if te == 1 then 0 else if te > 1 then te - 1 else te
  }

  /** A terminate(n) request during tick t sets the counter to 1 + n. */
  function SimRequest(terms: map<nat, int>, t: nat, te: int): int
  {
    if t in terms then 1 + terms[t] else te
  }

  /** Pass `t` of the exec loop: with the counter at 1 the break callback is
      asked and an answer of 0 stops before the tick; otherwise the tick is
      executed and a request made during it is recorded. */
  function SimPass(s: SimState, t: nat, terms: map<nat, int>, replies: map<nat, int>): SimState
  {
    var breaks := s.breaks + (if s.te == 1 then [t] else []);
    if s.te == 1 && Reply(replies, t) == 0 then SimState(s.ticks, true, breaks, s.te)
    else SimState(s.ticks + 1, false, breaks, SimRequest(terms, t, SimCheck(s.te)))
  }

  /** The state after the first `t` passes; once stopped, nothing changes. */
  function SimAfter(terms: map<nat, int>, replies: map<nat, int>, t: nat): (s: SimState)
    ensures s.ticks <= t
    ensures !s.stopped ==> s.ticks == t
  {
    if t == 0 then SimState(0, false, [], 0)
    else
      var s := SimAfter(terms, replies, t - 1);
      if s.stopped then s else SimPass(s, t - 1, terms, replies)
  }

  /** exec starts with the pending counter and the tick index at 0. */
  function SimRun(cs: seq<Multistep>, terms: map<nat, int>, replies: map<nat, int>): SimState
  {
    SimAfter(terms, replies, TickCount(cs))
  }

  /** The arguments on_execution_break receives: empty steps and the tick. */
  function SimBreakArgs(ts: seq<nat>): seq<(Steps4, int)>
  {
    seq(|ts|, i requires 0 <= i < |ts| => (Zero(), ts[i] as int))
  }

  class SteppingSim {
    var terminateExecution: int
    var tickIndex: int
    var currentSteps: Steps4
    /** The arguments of the on_step callback, in order. */
    var stepLog: seq<Steps4>
    /** The arguments of on_execution_break, in order. */
    var breakLog: seq<(Steps4, int)>

    /** The constructor stores the start position and the callback; the two
        counters, which the source leaves uninitialised, start at 0 here. */
    constructor(start: Steps4)
      ensures currentSteps == start
      ensures terminateExecution == 0 && tickIndex == 0
      ensures stepLog == [] && breakLog == []
    {
      currentSteps := start;
      terminateExecution := 0;
      tickIndex := 0;
      stepLog := [];
      breakLog := [];
    }

    function GetTickIndex(): int
      reads this
    {
      tickIndex
    }

    /** terminate(n): unconditionally asks to stop after n more ticks. */
    method Terminate(n: int)
      modifies this`terminateExecution
      ensures terminateExecution == 1 + n
    {
      terminateExecution := 1 + n;
    }

    method ResetAfterTerminate()
      modifies this`terminateExecution
      ensures terminateExecution == 0
    {
      terminateExecution := 0;
    }

    /** One pass of the exec loop for tick `t`: the check of the pending
        counter, then (unless it stops) the step and any terminate request
        made during it. */
    method RunTick(t: nat, pos: Steps4, startSteps: Steps4, terms: map<nat, int>, replies: map<nat, int>)
      returns (stop: bool)
      modifies this`terminateExecution, this`breakLog, this`currentSteps, this`stepLog
      ensures stop <==> old(terminateExecution) == 1 && Reply(replies, t) == 0
      ensures breakLog == old(breakLog) + (if old(terminateExecution) == 1 then [(Zero(), t as int)] else [])
      ensures stop ==> terminateExecution == old(terminateExecution)
      ensures !stop ==> terminateExecution == SimRequest(terms, t, SimCheck(old(terminateExecution)))
      ensures !stop ==> currentSteps == ElemAdd(pos, startSteps) && stepLog == old(stepLog) + [pos]
      ensures stop ==> currentSteps == old(currentSteps) && stepLog == old(stepLog)
    {
      stop := false;
      if terminateExecution > 0 {
        if terminateExecution == 1 {
          breakLog := breakLog + [(Zero(), t as int)];
          if Reply(replies, t) != 0 {
            terminateExecution := 0;
          } else {
            stop := true;
            return;
          }
        } else {
          terminateExecution := terminateExecution - 1;
        }
      }
      currentSteps := Add(pos, startSteps);
      stepLog := stepLog + [pos];
      if t in terms {
        Terminate(terms[t]);
      }
    }

    /** Pass t of the loop of exec, with the tick index moved on when the
        tick was executed. */
    method LoopPass(steps: seq<Steps4>, t: nat, startSteps: Steps4, terms: map<nat, int>, replies: map<nat, int>,
                    ghost s: SimState, ghost log0: seq<Steps4>, ghost breaks0: seq<(Steps4, int)>)
      returns (stop: bool, ghost s2: SimState)
      requires t < |steps| && s == SimAfter(terms, replies, t) && !s.stopped
      requires tickIndex == t && s.te == terminateExecution
      requires stepLog == log0 + steps[..t] && breakLog == breaks0 + SimBreakArgs(s.breaks)
      modifies this`terminateExecution, this`breakLog, this`currentSteps, this`stepLog, this`tickIndex
      ensures s2 == SimAfter(terms, replies, t + 1) && s2.stopped == stop
      ensures breakLog == breaks0 + SimBreakArgs(s2.breaks) && terminateExecution == s2.te
      ensures stop ==> s2.ticks == t && tickIndex == t
      ensures stop ==> currentSteps == old(currentSteps) && stepLog == old(stepLog)
      ensures !stop ==> s2.ticks == t + 1 && tickIndex == t + 1
      ensures !stop ==> currentSteps == ElemAdd(steps[t], startSteps) && stepLog == log0 + steps[..t + 1]
    {
      stop := RunTick(t, steps[t], startSteps, terms, replies);
      SimBreakArgsAppend(s.breaks, if s.te == 1 then [t] else []);
      s2 := SimPass(s, t, terms, replies);
      if !stop {
        assert steps[..t + 1] == steps[..t] + [steps[t]];
        tickIndex := tickIndex + 1;
      }
    }

    /** The loop of exec over the replayed positions `steps`. */
    method ReplayLoop(steps: seq<Steps4>, startSteps: Steps4, terms: map<nat, int>, replies: map<nat, int>)
      returns (stopped: bool)
      requires terminateExecution == 0 && tickIndex == 0 && currentSteps == startSteps
      modifies this
      ensures stopped <==> SimAfter(terms, replies, |steps|).stopped
      ensures tickIndex == SimAfter(terms, replies, |steps|).ticks
      ensures terminateExecution == SimAfter(terms, replies, |steps|).te
      ensures var k := SimAfter(terms, replies, |steps|).ticks;
        currentSteps == if k == 0 then startSteps else ElemAdd(steps[k - 1], startSteps)
      ensures stepLog == old(stepLog) + steps[..SimAfter(terms, replies, |steps|).ticks]
      ensures breakLog == old(breakLog) + SimBreakArgs(SimAfter(terms, replies, |steps|).breaks)
    {
      ghost var s := SimAfter(terms, replies, 0);
      var t := 0;
      while t < |steps|
        invariant 0 <= t <= |steps|
        invariant s == SimAfter(terms, replies, t)
        invariant !s.stopped && s.ticks == t && tickIndex == t && s.te == terminateExecution
        invariant currentSteps == if t == 0 then startSteps else ElemAdd(steps[t - 1], startSteps)
        invariant stepLog == old(stepLog) + steps[..t]
        invariant breakLog == old(breakLog) + SimBreakArgs(s.breaks)
      {
        var stop;
        stop, s := LoopPass(steps, t, startSteps, terms, replies, s, old(stepLog), old(breakLog));
        if stop {
          SimStoppedStays(terms, replies, t + 1, |steps|);
          return true;
        }
        t := t + 1;
      }
      assert steps[..t] == steps;
      return false;
    }

    /** exec: replays the positions of hardware_commands_to_steps.  Before a
        tick, a pending counter of 1 asks on_execution_break, which either
        clears it or makes exec throw; a larger one is decremented. */
    method Exec(cs: seq<Multistep>, terms: map<nat, int>, replies: map<nat, int>) returns (out: ExecOutcome)
      modifies this
      ensures out.Completed? <==> !SimRun(cs, terms, replies).stopped
      ensures out.Terminated? ==> out.delta == Zero()
      ensures tickIndex == SimRun(cs, terms, replies).ticks
      ensures terminateExecution == SimRun(cs, terms, replies).te
      ensures currentSteps == ElemAdd(Final(Zero(), Expand(cs)[..SimRun(cs, terms, replies).ticks]), old(currentSteps))
      ensures stepLog == old(stepLog) + Trace(Zero(), Expand(cs)[..SimRun(cs, terms, replies).ticks])
      ensures breakLog == old(breakLog) + SimBreakArgs(SimRun(cs, terms, replies).breaks)
    {
      terminateExecution := 0;
      tickIndex := 0;
      var startSteps := currentSteps;
      var steps := HardwareCommandsToSteps(cs);
      var stopped := ReplayLoop(steps, startSteps, terms, replies);
      ReplayedPrefix(cs, startSteps, SimRun(cs, terms, replies).ticks);
      if stopped {
        out := Terminated(Zero());
      } else {
        out := Completed;
      }
    }
  }

  /** The first k positions of the replay, and the position after k ticks
      seen from `start`. */
  lemma ReplayedPrefix(cs: seq<Multistep>, start: Steps4, k: nat)
    requires k <= TickCount(cs)
    ensures Trace(Zero(), Expand(cs))[..k] == Trace(Zero(), Expand(cs)[..k])
    ensures ElemAdd(Final(Zero(), Expand(cs)[..k]), start)
            == if k == 0 then start else ElemAdd(Trace(Zero(), Expand(cs))[k - 1], start)
  {
    TracePrefix(Zero(), Expand(cs), k);
    if k == 0 {
      ZeroIsNeutral(start);
      AddCommutes(start, Zero());
    } else {
      TraceIsPrefixFinals(Zero(), Expand(cs), k - 1);
    }
  }

  /** A stopped run stays stopped. */
  lemma {:induction false} SimStoppedStays(terms: map<nat, int>, replies: map<nat, int>, t: nat, u: nat)
    requires t <= u && SimAfter(terms, replies, t).stopped
    ensures SimAfter(terms, replies, u) == SimAfter(terms, replies, t)
    decreases u
  {
    if u > t {
      SimStoppedStays(terms, replies, t, u - 1);
    }
  }

  lemma SimBreakArgsAppend(a: seq<nat>, b: seq<nat>)
    ensures SimBreakArgs(a + b) == SimBreakArgs(a) + SimBreakArgs(b)
  {
  }

  // ---------------------------------------------------------------------------
  // Termination scenarios.

  predicate NoTermsIn(terms: map<nat, int>, t: nat, u: nat)
  {
    forall k :: t <= k < u ==> k !in terms
  }

  /** With nothing pending and no request, the loop just runs on. */
  lemma {:induction false} SimIdle(terms: map<nat, int>, replies: map<nat, int>, b: seq<nat>, t: nat, u: nat)
    requires t <= u && NoTermsIn(terms, t, u)
    requires SimAfter(terms, replies, t) == SimState(t, false, b, 0)
    ensures SimAfter(terms, replies, u) == SimState(u, false, b, 0)
    decreases u
  {
    if u > t {
      SimIdle(terms, replies, b, t, u - 1);
    }
  }

  /** A pending counter m >= 1 counts down to 1 over m − 1 ticks. */
  lemma {:induction false} SimCountdown(terms: map<nat, int>, replies: map<nat, int>, b: seq<nat>, m: int, t: nat)
    requires m >= 1 && NoTermsIn(terms, t, t + m - 1)
    requires SimAfter(terms, replies, t) == SimState(t, false, b, m)
    ensures SimAfter(terms, replies, t + m - 1) == SimState(t + m - 1, false, b, 1)
    decreases m
  {
    if m > 1 {
      assert SimAfter(terms, replies, t + 1) == SimState(t + 1, false, b, m - 1);
      SimCountdown(terms, replies, b, m - 1, t + 1);
    }
  }

  /** Without terminate requests every tick is executed and the break
      callback is never asked. */
  lemma SimNoTermination(cs: seq<Multistep>, replies: map<nat, int>)
    ensures SimRun(cs, map[], replies) == SimState(TickCount(cs), false, [], 0)
  {
    SimIdle(map[], replies, [], 0, TickCount(cs));
  }

  /** terminate(n) during tick k leaves the counter at 1 after tick k + n. */
  lemma SimReachBreak(k: nat, n: nat, replies: map<nat, int>)
    ensures SimAfter(map[k := n], replies, k + 1 + n) == SimState(k + 1 + n, false, [], 1)
  {
    var terms := map[k := n];
    SimIdle(terms, replies, [], 0, k);
    assert SimAfter(terms, replies, k + 1) == SimState(k + 1, false, [], 1 + n);
    SimCountdown(terms, replies, [], 1 + n, k + 1);
  }

  /** terminate(n) during tick k: n more ticks run, then the break callback
      is asked at tick k + 1 + n; an answer of 0 stops there, before that
      tick, and any other answer lets all remaining ticks run. */
  lemma SimTerminate(cs: seq<Multistep>, k: nat, n: nat, replies: map<nat, int>)
    requires k + 1 + n < TickCount(cs)
    ensures SimRun(cs, map[k := n], replies).breaks == [k + 1 + n]
    ensures SimRun(cs, map[k := n], replies).stopped <==> Reply(replies, k + 1 + n) == 0
    ensures SimRun(cs, map[k := n], replies).ticks == if Reply(replies, k + 1 + n) == 0 then k + 1 + n else TickCount(cs)
  {
    var terms := map[k := n];
    var u := k + 1 + n;
    SimReachBreak(k, n, replies);
    if Reply(replies, u) != 0 {
      assert SimAfter(terms, replies, u + 1) == SimState(u + 1, false, [u], 0);
      SimIdle(terms, replies, [u], u + 1, TickCount(cs));
    } else {
      assert SimAfter(terms, replies, u + 1) == SimState(u, true, [u], 1);
      SimStoppedStays(terms, replies, u + 1, TickCount(cs));
    }
  }

  /** The stepping_sim test: 40 ticks, terminate() during the second tick and
      the default callback stop the run after 2 ticks. */
  lemma SimTerminateAtSecondTick(cs: seq<Multistep>)
    requires TickCount(cs) == 40
    ensures SimRun(cs, map[1 := 0], map[]).ticks == 2
    ensures SimRun(cs, map[1 := 0], map[]).stopped
  {
    SimTerminate(cs, 1, 0, map[]);
  }
}
