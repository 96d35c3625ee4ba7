/**
 * stepping_simple_timer: the executor that drives a low-level stepper driver
 * tick by tick and waits between ticks.  The driver is the in-memory driver;
 * the timer is modelled by the list of durations that exec asks it to wait
 * (`delays`).  As in stepping_sim.dfy, a terminate(n) request from another
 * thread is a scripted input: `terms[t] == n` means terminate(n) is called
 * while tick t is executed, after its step; the answers of the
 * on_execution_break callback are scripted by tick index.
 *
 * After terminate(n) the executor slows down: the counter_delay factor (in
 * per mille of the tick delay) grows by one per tick until the break
 * callback is asked.  An answer of 0 makes exec throw; any other answer
 * ramps the factor back down to 1000 one per mille per tick, after which
 * the termination state is cleared.
 */
module TimerExecutor {

  import opened Common
  import opened DistanceT
  import opened SteppingCommands
  import opened Ticks
  import opened Stepping
  import opened InMemDriver

  /** The state of the exec loop after some passes: ticks executed, whether
      execution_terminated was thrown, the pending counter
      _terminate_execution, the loop locals termination_procedure_ddt,
      start_counter_delay and counter_delay, the ticks at which the break
      callback was asked, and the waits requested so far. */
  datatype TimerState = TimerState(
    ticks: nat, stopped: bool,
    te: int, ddt: int, scd: int, cd: int,
    breaks: seq<nat>, delays: seq<int>)

  /** A fresh termination starts the slow-down. */
  predicate Starts(s: TimerState)
  {
    s.te > 0 && s.ddt == 0
  }

  /** A finished ramp-up clears the termination state. */
  predicate Resets(s: TimerState)
  {
    s.te > 0 && s.ddt > 0 && s.cd == 1000
  }

  /** Whether the break callback is asked before the tick: the counter has
      slowed down to 1. */
  predicate Asks(s: TimerState)
  {
    s.te > 0 && !Resets(s) && s.te == 1 && (Starts(s) || s.ddt < 0)
  }

  /** The check before tick t. */
  function TimerCheck(s: TimerState, t: nat, replies: map<nat, int>): TimerState
  {
    var te1 := if Resets(s) then 0 else s.te;
    var ddt1 := if Starts(s) then -1 else if Resets(s) then 0 else s.ddt;
    var scd1 := if Starts(s) then s.te else if Resets(s) then 0 else s.scd;
    var te2 := if Asks(s) || s.te <= 0 then te1 else te1 + ddt1;
    TimerState(s.ticks, Asks(s) && Reply(replies, t) == 0, te2,
               if Asks(s) && Reply(replies, t) != 0 then 1 else ddt1, scd1,
               if !Asks(s) && s.te > 0 then 1000 + (scd1 - te2) else s.cd,
               s.breaks + (if Asks(s) then [t] else []), s.delays)
  }

  /** terminate(n) only takes effect when no termination is pending. */
  function TimerRequest(terms: map<nat, int>, t: nat, te: int): int
  {
    if t in terms && te == 0 then 1 + terms[t] else te
  }

  /** The wait after a tick: delay·counter_delay/1000 in integer arithmetic. */
  function Wait(delay: int, cd: int): int
  {
    CDiv(delay * cd, 1000)
  }

  /** Tick t itself: one more tick, a request made during it, and the wait. */
  function TimerStep(c: TimerState, t: nat, delay: int, terms: map<nat, int>): TimerState
  {
    TimerState(c.ticks + 1, c.stopped, TimerRequest(terms, t, c.te), c.ddt, c.scd, c.cd, c.breaks, c.delays + [Wait(delay, c.cd)])
  }

  /** The state after the first `t` passes; once stopped, nothing changes. */
  function TimerAfter(delay: int, terms: map<nat, int>, replies: map<nat, int>, t: nat): (s: TimerState)
    ensures s.ticks <= t
    ensures !s.stopped ==> s.ticks == t
  {
    if t == 0 then TimerState(0, false, 0, 0, 0, 1000, [], [])
    else
      var s := TimerAfter(delay, terms, replies, t - 1);
      if s.stopped then s
      else
        var c := TimerCheck(s, t - 1, replies);
        if c.stopped then c else TimerStep(c, t - 1, delay, terms)
  }

  /** exec starts with the pending counter, the tick index and the locals
      reset. */
  function TimerRun(cs: seq<Multistep>, delay: int, terms: map<nat, int>, replies: map<nat, int>): TimerState
  {
    TimerAfter(delay, terms, replies, TickCount(cs))
  }

  /** The steps counted by _steps_counter in one tick: those of the first
      three axes. */
  function StepBits(b: AxisSteps): int
  {
    b[0].step + b[1].step + b[2].step
  }

  function StepBitCount(ts: seq<AxisSteps>): int
  {
    if ts == [] then 0 else StepBitCount(ts[..|ts| - 1]) + StepBits(ts[|ts| - 1])
  }

  /** The position after the first t ticks, as the break callback and the
      exception receive it. */
  function BreakPosition(cs: seq<Multistep>, t: nat): Steps4
  {
    Final(Zero(), Expand(cs)[..Cut(t, TickCount(cs))])
  }

  /** The arguments on_execution_break receives at the ticks `ts`. */
  function TimerBreakArgs(cs: seq<Multistep>, ts: seq<nat>): seq<(Steps4, int)>
  {
    seq(|ts|, i requires 0 <= i < |ts| => (BreakPosition(cs, ts[i]), ts[i] as int))
  }

  /** The state exec starts from: the driver's position, its step log and
      the offset of its counters from its position, and the executor's own
      steps counter, wait list and break log. */
  datatype Origin = Origin(position: Steps4, stepLog: seq<Steps4>, offset: Steps4,
                           stepsCounter: int, delays: seq<int>, breakLog: seq<(Steps4, int)>)

  /** The fields exec updates: the executor's tick index, pending counter,
      wait list, break log and steps counter, and the driver's position, step
      log and counters. */
  datatype Fields = Fields(tickIndex: int, te: int, delays: seq<int>, breakLog: seq<(Steps4, int)>,
                           stepsCounter: int, position: Steps4, stepLog: seq<Steps4>, counters: Steps4)

  /** The fields `f` are those of exec after the ticks `done` with the
      protocol state `s`, seen from the state `o` it started in. */
  ghost predicate Agrees(o: Origin, cs: seq<Multistep>, done: seq<AxisSteps>, s: TimerState, f: Fields)
  {
    && s.ticks == f.tickIndex && s.te == f.te
    && f.delays == o.delays + s.delays
    && f.breakLog == o.breakLog + TimerBreakArgs(cs, s.breaks)
    && f.stepsCounter == o.stepsCounter + StepBitCount(done)
    && f.position == Final(o.position, done)
    && f.stepLog == o.stepLog + Trace(o.position, done)
    && ElemSub(f.counters, f.position) == o.offset
  }

  /** The fields after tick t, which executes the tick command b. */
  function FieldsAfterTick(f: Fields, t: nat, b: AxisSteps, delay: int, cd: int, terms: map<nat, int>): Fields
  {
    var p := ApplyTick(f.position, b);
    Fields(f.tickIndex + 1, TimerRequest(terms, t, f.te), f.delays + [Wait(delay, cd)], f.breakLog,
           f.stepsCounter + StepBits(b), p, f.stepLog + [p], CountersAfter(f.counters, b))
  }

  /** A tick keeps the fields in step with the protocol state. */
  lemma AgreesStep(o: Origin, cs: seq<Multistep>, done: seq<AxisSteps>, c: TimerState, f: Fields,
                   t: nat, b: AxisSteps, delay: int, terms: map<nat, int>)
    requires Agrees(o, cs, done, c, f)
    ensures Agrees(o, cs, done + [b], TimerStep(c, t, delay, terms), FieldsAfterTick(f, t, b, delay, c.cd, terms))
  {
    FinalSnoc(o.position, done, b);
    CountersTrackPosition(f.counters, f.position, b);
    assert (done + [b])[..|done|] == done;
  }

  class SteppingTimer {
    var stepsCounter: int
    var tickIndex: int
    var terminateExecution: int
    var delayMicroseconds: int
    var driver: InMem
    /** The durations exec asked the timer to wait, in order. */
    var delays: seq<int>
    /** The arguments of on_execution_break, in order. */
    var breakLog: seq<(Steps4, int)>

    /** The constructor stores the delay and the driver; the counters, which
        the source leaves uninitialised, start at 0 here. */
    constructor(delay: int, d: InMem)
      ensures delayMicroseconds == delay && driver == d
      ensures stepsCounter == 0 && tickIndex == 0 && terminateExecution == 0
      ensures delays == [] && breakLog == []
    {
      delayMicroseconds := delay;
      driver := d;
      stepsCounter := 0;
      tickIndex := 0;
      terminateExecution := 0;
      delays := [];
      breakLog := [];
    }

    function GetTickIndex(): int
      reads this
    {
      tickIndex
    }

    method SetDelayMicroseconds(delay: int)
      modifies this`delayMicroseconds
      ensures delayMicroseconds == delay
    {
      delayMicroseconds := delay;
    }

    /** terminate(n): asks to stop after n more ticks, unless a termination
        is already pending. */
    method Terminate(n: int)
      modifies this`terminateExecution
      ensures terminateExecution == if old(terminateExecution) == 0 then 1 + n else old(terminateExecution)
    {
      if terminateExecution == 0 {
        terminateExecution := 1 + n;
      }
    }

    method ResetAfterTerminate()
      modifies this`terminateExecution
      ensures terminateExecution == 0
    {
      terminateExecution := 0;
    }

    /** The check before tick t, on the loop locals of exec. */
    method CheckTermination(cs: seq<Multistep>, t: nat, ghost s: TimerState, ddt: int, scd: int, cd: int,
                            replies: map<nat, int>)
      returns (stop: bool, ddt2: int, scd2: int, cd2: int)
      requires !s.stopped && s.te == terminateExecution && s.ddt == ddt && s.scd == scd && s.cd == cd
      modifies this`terminateExecution, this`breakLog
      ensures stop == TimerCheck(s, t, replies).stopped
      ensures terminateExecution == TimerCheck(s, t, replies).te
      ensures ddt2 == TimerCheck(s, t, replies).ddt && scd2 == TimerCheck(s, t, replies).scd
      ensures cd2 == TimerCheck(s, t, replies).cd
      ensures breakLog == old(breakLog) + (if Asks(s) then [(BreakPosition(cs, t), t as int)] else [])
    {
      stop, ddt2, scd2, cd2 := false, ddt, scd, cd;
      if terminateExecution > 0 {
        if ddt2 == 0 {
          scd2 := terminateExecution;
          ddt2 := -1;
        } else if ddt2 > 0 {
          if cd2 == 1000 {
            terminateExecution := 0;
            scd2 := 0;
            ddt2 := 0;
          }
        }
        if terminateExecution == 1 && ddt2 < 0 {
          var pos := LastPositionAfter(cs, t);
          breakLog := breakLog + [(pos, t as int)];
          if Reply(replies, t) != 0 {
            ddt2 := 1;
            terminateExecution := 1;
          } else {
            stop := true;
          }
        } else {
          terminateExecution := terminateExecution + ddt2;
          cd2 := 1000 + (scd2 - terminateExecution);
        }
      }
    }

    /** What exec has done after the ticks `done`, with the protocol state
        `s`, seen from the state `o` it started in. */
    ghost predicate Tracks(o: Origin, cs: seq<Multistep>, done: seq<AxisSteps>, s: TimerState)
      reads this, driver
    {
      Agrees(o, cs, done, s, Fields(tickIndex, terminateExecution, delays, breakLog, stepsCounter,
                                    driver.currentSteps, driver.stepLog, driver.counters))
    }

    /** The tick itself: the driver steps, the steps counter grows, a
        scripted terminate request is made, and exec waits. */
    method StepTick(cs: seq<Multistep>, t: nat, b: AxisSteps, ghost c: TimerState, cd: int,
                    terms: map<nat, int>, ghost o: Origin, ghost done: seq<AxisSteps>)
      requires Tracks(o, cs, done, c) && c.cd == cd && tickIndex == t
      modifies this`terminateExecution, this`stepsCounter, this`tickIndex, this`delays, driver
      ensures Tracks(o, cs, done + [b], TimerStep(c, t, delayMicroseconds, terms))
    {
      ghost var f := Fields(tickIndex, terminateExecution, delays, breakLog, stepsCounter,
                            driver.currentSteps, driver.stepLog, driver.counters);
      driver.DoStep(b);
      stepsCounter := stepsCounter + b[0].step + b[1].step + b[2].step;
      if t in terms {
        Terminate(terms[t]);
      }
      tickIndex := tickIndex + 1;
      delays := delays + [CDiv(delayMicroseconds * cd, 1000)];
      AgreesStep(o, cs, done, c, f, t, b, delayMicroseconds, terms);
    }

    /** One pass of the exec loop for tick t with the tick command b. */
    method RunTick(cs: seq<Multistep>, t: nat, b: AxisSteps, ghost s: TimerState, ddt: int, scd: int, cd: int,
                   terms: map<nat, int>, replies: map<nat, int>, ghost o: Origin, ghost done: seq<AxisSteps>)
      returns (stop: bool, ddt2: int, scd2: int, cd2: int)
      requires s == TimerAfter(delayMicroseconds, terms, replies, t) && !s.stopped
      requires Tracks(o, cs, done, s) && s.ddt == ddt && s.scd == scd && s.cd == cd
      modifies this`terminateExecution, this`breakLog, this`stepsCounter, this`tickIndex, this`delays, driver
      ensures stop == TimerAfter(delayMicroseconds, terms, replies, t + 1).stopped
      ensures tickIndex == if stop then t else t + 1
      ensures Tracks(o, cs, if stop then done else done + [b], TimerAfter(delayMicroseconds, terms, replies, t + 1))
      ensures !stop ==> var n := TimerAfter(delayMicroseconds, terms, replies, t + 1);
        ddt2 == n.ddt && scd2 == n.scd && cd2 == n.cd
    {
      ghost var c := TimerCheck(s, t, replies);
      TimerBreakArgsAppend(cs, s.breaks, if Asks(s) then [t] else []);
      stop, ddt2, scd2, cd2 := CheckTermination(cs, t, s, ddt, scd, cd, replies);
      assert Tracks(o, cs, done, c);
      if !stop {
        StepTick(cs, t, b, c, cd2, terms, o, done);
      }
    }

    /** Tick i of command j, which is tick TickCount(cs[..j]) + i of the run. */
    method CommandTick(cs: seq<Multistep>, j: nat, i: nat, ghost s: TimerState, ddt: int, scd: int, cd: int,
                       terms: map<nat, int>, replies: map<nat, int>, ghost o: Origin)
      returns (stop: bool, ddt2: int, scd2: int, cd2: int, ghost s2: TimerState)
      requires j < |cs| && i < cs[j].count && tickIndex == TickCount(cs[..j]) + i < TickCount(cs)
      requires s == TimerAfter(delayMicroseconds, terms, replies, tickIndex) && !s.stopped
      requires Tracks(o, cs, Expand(cs)[..tickIndex], s) && s.ddt == ddt && s.scd == scd && s.cd == cd
      modifies this`terminateExecution, this`breakLog, this`stepsCounter, this`tickIndex, this`delays, driver
      ensures 0 <= tickIndex <= TickCount(cs) && Tracks(o, cs, Expand(cs)[..tickIndex], s2)
      ensures stop ==> s2 == TimerAfter(delayMicroseconds, terms, replies, TickCount(cs)) && s2.stopped
      ensures !stop ==> tickIndex == TickCount(cs[..j]) + i + 1
      ensures !stop ==> s2 == TimerAfter(delayMicroseconds, terms, replies, tickIndex) && !s2.stopped
      ensures !stop ==> s2.ddt == ddt2 && s2.scd == scd2 && s2.cd == cd2
    {
      var t: nat := tickIndex;
      PrefixSnoc(cs, j, i, t);
      stop, ddt2, scd2, cd2 := RunTick(cs, t, cs[j].b, s, ddt, scd, cd, terms, replies, o, Expand(cs)[..t]);
      s2 := TimerAfter(delayMicroseconds, terms, replies, t + 1);
      if stop {
        TimerStoppedStays(delayMicroseconds, terms, replies, t + 1, TickCount(cs));
      }
    }

    /** The inner loop of exec: the ticks of command j. */
    method ExecCommand(cs: seq<Multistep>, j: nat, ghost s: TimerState, ddt: int, scd: int, cd: int,
                       terms: map<nat, int>, replies: map<nat, int>, ghost o: Origin)
      returns (stop: bool, ddt2: int, scd2: int, cd2: int, ghost s2: TimerState)
      requires j < |cs| && tickIndex == TickCount(cs[..j]) <= TickCount(cs)
      requires s == TimerAfter(delayMicroseconds, terms, replies, tickIndex) && !s.stopped
      requires Tracks(o, cs, Expand(cs)[..tickIndex], s) && s.ddt == ddt && s.scd == scd && s.cd == cd
      modifies this`terminateExecution, this`breakLog, this`stepsCounter, this`tickIndex, this`delays, driver
      ensures 0 <= tickIndex <= TickCount(cs) && Tracks(o, cs, Expand(cs)[..tickIndex], s2)
      ensures stop ==> s2 == TimerAfter(delayMicroseconds, terms, replies, TickCount(cs)) && s2.stopped
      ensures !stop ==> tickIndex == TickCount(cs[..j + 1])
      ensures !stop ==> s2 == TimerAfter(delayMicroseconds, terms, replies, tickIndex) && !s2.stopped
      ensures !stop ==> s2.ddt == ddt2 && s2.scd == scd2 && s2.cd == cd2
    {
      TickCountStep(cs, j);
      TickCountMono(cs, j + 1, |cs|);
      assert cs[..|cs|] == cs;
      ddt2, scd2, cd2, s2 := ddt, scd, cd, s;
      var i := 0;
      while i < cs[j].count
        invariant 0 <= i && (i <= cs[j].count || i == 0)
        invariant tickIndex == TickCount(cs[..j]) + i <= TickCount(cs)
        invariant s2 == TimerAfter(delayMicroseconds, terms, replies, tickIndex) && !s2.stopped
        invariant Tracks(o, cs, Expand(cs)[..tickIndex], s2) && s2.ddt == ddt2 && s2.scd == scd2 && s2.cd == cd2
        decreases cs[j].count - i
      {
        stop, ddt2, scd2, cd2, s2 := CommandTick(cs, j, i, s2, ddt2, scd2, cd2, terms, replies, o);
        if stop {
          return;
        }
        i := i + 1;
      }
      stop := false;
    }

    /** exec: executes every tick of every command on the driver and waits
        delay·counter_delay/1000 after it; the check before each tick runs
        the slow-down, break and ramp-up protocol of TimerCheck. */
    method Exec(cs: seq<Multistep>, terms: map<nat, int>, replies: map<nat, int>) returns (out: ExecOutcome)
      modifies this`terminateExecution, this`breakLog, this`stepsCounter, this`tickIndex, this`delays, driver
      ensures out.Completed? <==> !TimerRun(cs, delayMicroseconds, terms, replies).stopped
      ensures out.Terminated? ==> out.delta == Final(Zero(), Expand(cs)[..TimerRun(cs, delayMicroseconds, terms, replies).ticks])
      ensures tickIndex == TimerRun(cs, delayMicroseconds, terms, replies).ticks
      ensures terminateExecution == TimerRun(cs, delayMicroseconds, terms, replies).te
      ensures delays == old(delays) + TimerRun(cs, delayMicroseconds, terms, replies).delays
      ensures breakLog == old(breakLog) + TimerBreakArgs(cs, TimerRun(cs, delayMicroseconds, terms, replies).breaks)
      ensures stepsCounter == old(stepsCounter) + StepBitCount(Expand(cs)[..TimerRun(cs, delayMicroseconds, terms, replies).ticks])
      ensures driver.currentSteps == Final(old(driver.currentSteps), Expand(cs)[..TimerRun(cs, delayMicroseconds, terms, replies).ticks])
      ensures driver.stepLog == old(driver.stepLog) + Trace(old(driver.currentSteps), Expand(cs)[..TimerRun(cs, delayMicroseconds, terms, replies).ticks])
      ensures ElemSub(driver.counters, driver.currentSteps) == ElemSub(old(driver.counters), old(driver.currentSteps))
    {
      tickIndex := 0;
      terminateExecution := 0;
      ghost var o := Origin(driver.currentSteps, driver.stepLog, ElemSub(driver.counters, driver.currentSteps),
                            stepsCounter, delays, breakLog);
      var stop := RunCommands(cs, terms, replies, o);
      if stop {
        var pos := LastPositionAfter(cs, tickIndex);
        return Terminated(pos);
      }
      out := Completed;
    }

    /** The two loops of exec, from the state `o`, up to the end of the
        commands or the tick at which it throws. */
    method RunCommands(cs: seq<Multistep>, terms: map<nat, int>, replies: map<nat, int>, ghost o: Origin)
      returns (stop: bool)
      requires Tracks(o, cs, [], TimerAfter(delayMicroseconds, terms, replies, 0))
      modifies this`terminateExecution, this`breakLog, this`stepsCounter, this`tickIndex, this`delays, driver
      ensures stop == TimerRun(cs, delayMicroseconds, terms, replies).stopped
      ensures tickIndex == TimerRun(cs, delayMicroseconds, terms, replies).ticks
      ensures Tracks(o, cs, Expand(cs)[..tickIndex], TimerRun(cs, delayMicroseconds, terms, replies))
    {
      var counterDelay := 1000;
      var startCounterDelay := 0;
      var ddt := 0;
      ghost var s := TimerAfter(delayMicroseconds, terms, replies, 0);
      assert Expand(cs)[..tickIndex] == [];
      for j := 0 to |cs|
        invariant tickIndex == TickCount(cs[..j]) <= TickCount(cs)
        invariant s == TimerAfter(delayMicroseconds, terms, replies, tickIndex) && !s.stopped
        invariant Tracks(o, cs, Expand(cs)[..tickIndex], s) && s.ddt == ddt && s.scd == startCounterDelay && s.cd == counterDelay
      {
        stop, ddt, startCounterDelay, counterDelay, s :=
          ExecCommand(cs, j, s, ddt, startCounterDelay, counterDelay, terms, replies, o);
        if stop {
          return;
        }
        TickCountMono(cs, j + 1, |cs|);
      }
      assert cs[..|cs|] == cs;
      stop := false;
    }
  }

  lemma TimerBreakArgsAppend(cs: seq<Multistep>, a: seq<nat>, b: seq<nat>)
    ensures TimerBreakArgs(cs, a + b) == TimerBreakArgs(cs, a) + TimerBreakArgs(cs, b)
  {
  }

  /** A pass that neither starts nor ends stopped is the check followed by
      the tick. */
  lemma TimerAfterNext(delay: int, terms: map<nat, int>, replies: map<nat, int>, t: nat)
    requires 0 < t && !TimerAfter(delay, terms, replies, t - 1).stopped
    requires !TimerCheck(TimerAfter(delay, terms, replies, t - 1), t - 1, replies).stopped
    ensures TimerAfter(delay, terms, replies, t)
            == TimerStep(TimerCheck(TimerAfter(delay, terms, replies, t - 1), t - 1, replies), t - 1, delay, terms)
  {
  }

  /** A pass whose check throws leaves the state of the check, stopped. */
  lemma TimerAfterStop(delay: int, terms: map<nat, int>, replies: map<nat, int>, t: nat)
    requires 0 < t && !TimerAfter(delay, terms, replies, t - 1).stopped
    requires TimerCheck(TimerAfter(delay, terms, replies, t - 1), t - 1, replies).stopped
    ensures TimerAfter(delay, terms, replies, t) == TimerCheck(TimerAfter(delay, terms, replies, t - 1), t - 1, replies)
  {
  }

  /** A stopped run stays stopped. */
  lemma {:induction false} TimerStoppedStays(delay: int, terms: map<nat, int>, replies: map<nat, int>, t: nat, u: nat)
    requires t <= u && TimerAfter(delay, terms, replies, t).stopped
    ensures TimerAfter(delay, terms, replies, u) == TimerAfter(delay, terms, replies, t)
    decreases u
  {
    if u > t {
      TimerStoppedStays(delay, terms, replies, t, u - 1);
    }
  }

  // ---------------------------------------------------------------------------
  // The termination protocol in closed form.

  /** Without terminate requests every tick waits the plain delay. */
  lemma {:induction false} TimerIdle(delay: int, replies: map<nat, int>, t: nat)
    ensures TimerAfter(delay, map[], replies, t) == TimerState(t, false, 0, 0, 0, 1000, [], seq(t, i => Wait(delay, 1000)))
  {
    if t > 0 {
      TimerIdle(delay, replies, t - 1);
      assert seq(t, i => Wait(delay, 1000)) == seq(t - 1, i => Wait(delay, 1000)) + [Wait(delay, 1000)];
    }
  }

  /** A run without terminate requests executes every tick, never asks the
      break callback and waits delay·1000/1000 after each tick. */
  lemma TimerNoTermination(cs: seq<Multistep>, delay: int, replies: map<nat, int>)
    ensures !TimerRun(cs, delay, map[], replies).stopped
    ensures TimerRun(cs, delay, map[], replies).ticks == TickCount(cs)
    ensures TimerRun(cs, delay, map[], replies).breaks == []
    ensures TimerRun(cs, delay, map[], replies).te == 0
    ensures |TimerRun(cs, delay, map[], replies).delays| == TickCount(cs)
    ensures forall i :: 0 <= i < TickCount(cs) ==> TimerRun(cs, delay, map[], replies).delays[i] == Wait(delay, 1000)
  {
    TimerIdle(delay, replies, TickCount(cs));
  }

  /** The counter_delay factor of tick i when terminate(n) is called during
      tick k and the break callback, asked before tick u = k + 1 + n, lets the
      run go on: it grows by one per tick after k up to 1000 + n, stays
      there for tick u, falls back by one per tick to 1000 at tick u + n, and
      is 1000 from then on. */
  function Slowdown(k: nat, n: nat, i: int): int
  {
    var u := k + 1 + n;
    if i <= k then 1000
    else if i < u then 1000 + (i - k)
    else if i <= u + n then 1000 + n - (i - u)
    else 1000
  }

  /** The waits of the first t ticks in that scenario. */
  function ScenarioWaits(delay: int, k: nat, n: nat, t: nat): seq<int>
  {
    seq(t, i => Wait(delay, Slowdown(k, n, i)))
  }

  /** The state after t passes in that scenario: idle up to tick k, the
      request pending after it, counting down to 1 until u, then (after the
      break callback answered) counting back up until the factor is 1000
      again, and idle once the termination state is cleared. */
  function TimerScenario(delay: int, k: nat, n: nat, t: nat): TimerState
  {
    var u := k + 1 + n;
    var down := k + 1 < t <= u;
    var up := u < t <= u + 1 + n;
    TimerState(t, false,
               if t == k + 1 then 1 + n else if down then 1 + n - (t - k - 1) else if up then t - u else 0,
               if down then -1 else if up then 1 else 0,
               if down || up then 1 + n else 0,
               if down then 1000 + (t - k - 1) else if up then 1000 + n - (t - u - 1) else 1000,
               if t <= u then [] else [u], ScenarioWaits(delay, k, n, t))
  }

  /** One pass of the exec loop in the scenario: it never throws except when
      the break callback answers 0 before tick u. */
  lemma TimerScenarioStep(delay: int, k: nat, n: nat, replies: map<nat, int>, t: nat)
    requires 0 < t && (t - 1 < k + 1 + n || Reply(replies, k + 1 + n) != 0)
    ensures !TimerCheck(TimerScenario(delay, k, n, t - 1), t - 1, replies).stopped
    ensures TimerStep(TimerCheck(TimerScenario(delay, k, n, t - 1), t - 1, replies), t - 1, delay, map[k := n])
            == TimerScenario(delay, k, n, t)
  {
    assert ScenarioWaits(delay, k, n, t) == ScenarioWaits(delay, k, n, t - 1) + [Wait(delay, Slowdown(k, n, t - 1))];
    var u := k + 1 + n;
    if t < k {
    } else if t == k {
    } else if t == k + 1 {
    } else if t < u {
    } else if t == u {
    } else if t <= u + n {
    } else if t == u + n + 1 {
    } else {
    }
  }

  /** terminate(n) during tick k follows the closed form up to tick u, and
      beyond it when the break callback answers non-zero. */
  lemma {:induction false} TimerScenarioHolds(delay: int, k: nat, n: nat, replies: map<nat, int>, t: nat)
    requires t <= k + 1 + n || Reply(replies, k + 1 + n) != 0
    ensures TimerAfter(delay, map[k := n], replies, t) == TimerScenario(delay, k, n, t)
    decreases t
  {
    if t > 0 {
      TimerScenarioHolds(delay, k, n, replies, t - 1);
      TimerScenarioStep(delay, k, n, replies, t);
      TimerAfterNext(delay, map[k := n], replies, t);
    }
  }

  /** When the break callback answers 0 before tick u, exec throws there:
      u ticks were executed and the factor had reached 1000 + n. */
  lemma TimerScenarioStops(delay: int, k: nat, n: nat, replies: map<nat, int>, t: nat)
    requires Reply(replies, k + 1 + n) == 0 && t > k + 1 + n
    ensures TimerAfter(delay, map[k := n], replies, t)
            == TimerState(k + 1 + n, true, 1, -1, 1 + n, 1000 + n, [k + 1 + n], ScenarioWaits(delay, k, n, k + 1 + n))
  {
    var v := k + 2 + n;
    TimerScenarioHolds(delay, k, n, replies, v - 1);
    TimerAfterStop(delay, map[k := n], replies, v);
    TimerStoppedStays(delay, map[k := n], replies, v, t);
  }

  /** exec with terminate(n) called during tick k, when tick u = k + 1 + n
      exists: the break callback is asked once, before tick u; answering 0
      ends the run there, anything else lets it finish. */
  lemma TimerTerminate(cs: seq<Multistep>, delay: int, k: nat, n: nat, replies: map<nat, int>)
    requires k + 1 + n < TickCount(cs)
    ensures TimerRun(cs, delay, map[k := n], replies).breaks == [k + 1 + n]
    ensures TimerRun(cs, delay, map[k := n], replies).stopped <==> Reply(replies, k + 1 + n) == 0
    ensures TimerRun(cs, delay, map[k := n], replies).ticks
            == if Reply(replies, k + 1 + n) == 0 then k + 1 + n else TickCount(cs)
    ensures TimerRun(cs, delay, map[k := n], replies).delays
            == ScenarioWaits(delay, k, n, TimerRun(cs, delay, map[k := n], replies).ticks)
  {
    if Reply(replies, k + 1 + n) == 0 {
      TimerScenarioStops(delay, k, n, replies, TickCount(cs));
    } else {
      TimerScenarioHolds(delay, k, n, replies, TickCount(cs));
    }
  }

  /** Forty one-tick commands, terminate(16) during the second tick and the
      default break callback: exec throws after 18 ticks. */
  lemma TimerTerminateSixteen(cs: seq<Multistep>, delay: int)
    requires TickCount(cs) == 40
    ensures TimerRun(cs, delay, map[1 := 16], map[]).stopped
    ensures TimerRun(cs, delay, map[1 := 16], map[]).ticks == 18
  {
    TimerTerminate(cs, delay, 1, 16, map[]);
  }

  /** Forty one-tick commands at a delay of 1000 µs, terminate(5) during the
      second tick and the default break callback: seven ticks, the last five
      slowed down by one per mille more each. */
  lemma TimerTerminateFiveStops(cs: seq<Multistep>)
    requires TickCount(cs) == 40
    ensures TimerRun(cs, 1000, map[1 := 5], map[]).stopped
    ensures TimerRun(cs, 1000, map[1 := 5], map[]).ticks == 7
    ensures TimerRun(cs, 1000, map[1 := 5], map[]).delays == [1000, 1000, 1001, 1002, 1003, 1004, 1005]
  {
    TimerTerminate(cs, 1000, 1, 5, map[]);
  }

  /** The same run with a break callback that answers 1: all forty ticks,
      slowed down to 1005 and ramped back to 1000. */
  lemma TimerTerminateFiveResumes(cs: seq<Multistep>)
    requires TickCount(cs) == 40
    ensures !TimerRun(cs, 1000, map[1 := 5], map[7 := 1]).stopped
    ensures TimerRun(cs, 1000, map[1 := 5], map[7 := 1]).ticks == 40
    ensures TimerRun(cs, 1000, map[1 := 5], map[7 := 1]).delays
            == [1000, 1000, 1001, 1002, 1003, 1004, 1005, 1005, 1004, 1003, 1002, 1001] + seq(28, i => 1000)
  {
    TimerTerminate(cs, 1000, 1, 5, map[7 := 1]);
    assert ScenarioWaits(1000, 1, 5, 40)
           == [1000, 1000, 1001, 1002, 1003, 1004, 1005, 1005, 1004, 1003, 1002, 1001] + seq(28, i => 1000);
  }
}
