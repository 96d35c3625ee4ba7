/**
 * The in-memory stepper driver: it keeps a per-axis step counter and the
 * current step position, and reports every tick to a step callback.  The
 * callbacks are modelled by logs of the values they receive.
 */
module InMemDriver {

  import opened DistanceT
  import opened SteppingCommands
  import opened Ticks

  /** The change of the step counter of one axis in one tick: ±1 when the
      step bit is set. */
  function CounterDelta(c: SingleStep): int
  {
    if c.step == 1 then c.dir * 2 - 1 else 0
  }

  function CountersAfter(counters: Steps4, b: AxisSteps): Steps4
  {
    seq(N, i requires 0 <= i < N => counters[i] + CounterDelta(b[i]))
  }

  class InMem {
    var counters: Steps4
    var enabled: seq<bool>
    var currentSteps: Steps4
    /** The arguments of the step callback, one per do_step call. */
    var stepLog: seq<Steps4>
    /** The arguments of on_enable_steppers, one per enable_steppers call. */
    var enableLog: seq<seq<bool>>

    /** The constructor zeroes the position and the counters and installs
        callbacks that do nothing.  It builds `enabled` with the arguments of
        the std::vector<bool> constructor swapped (count `false`, i.e. zero
        elements), so `enabled` starts empty. */
    constructor()
      ensures currentSteps == Zero() && counters == Zero()
      ensures enabled == []
      ensures stepLog == [] && enableLog == []
    {
      currentSteps := Zero();
      var c := [1, 1, 1, 1];
      for i := 0 to N
        invariant |c| == N
        invariant forall k :: 0 <= k < i ==> c[k] == 0
      {
        c := c[i := 0];
      }
      counters := c;
      enabled := [];
      stepLog := [];
      enableLog := [];
    }

    /** do_step: counters move by ±1 on the axes whose step bit is set, the
        position moves by step·(2·dir − 1) on every axis, and the step
        callback is called once with the new position. */
    method DoStep(b: AxisSteps)
      modifies this
      ensures counters == CountersAfter(old(counters), b)
      ensures currentSteps == ApplyTick(old(currentSteps), b)
      ensures stepLog == old(stepLog) + [currentSteps]
      ensures enabled == old(enabled) && enableLog == old(enableLog)
    {
      var c := counters;
      for i := 0 to N
        invariant forall k :: 0 <= k < i ==> c[k] == old(counters)[k] + CounterDelta(b[k])
        invariant forall k :: i <= k < N ==> c[k] == old(counters)[k]
      {
        if b[i].step == 1 {
          c := c[i := c[i] + (b[i].dir * 2 - 1)];
        }
      }
      counters := c;
      var p := currentSteps;
      for j := 0 to N
        invariant forall k :: 0 <= k < j ==> p[k] == old(currentSteps)[k] + AxisDelta(b[k])
        invariant forall k :: j <= k < N ==> p[k] == old(currentSteps)[k]
      {
        p := p[j := p[j] + b[j].step * (b[j].dir * 2 - 1)];
      }
      currentSteps := p;
      stepLog := stepLog + [currentSteps];
    }

    /** enable_steppers: stores the flags and forwards them to the callback. */
    method EnableSteppers(en: seq<bool>)
      modifies this
      ensures enabled == en
      ensures enableLog == old(enableLog) + [en]
      ensures counters == old(counters) && currentSteps == old(currentSteps) && stepLog == old(stepLog)
    {
      enabled := en;
      enableLog := enableLog + [en];
    }
  }

  /** Counters and position move alike: their difference is the same
      before and after every tick. */
  lemma CountersTrackPosition(counters: Steps4, p: Steps4, b: AxisSteps)
    ensures ElemSub(CountersAfter(counters, b), ApplyTick(p, b)) == ElemSub(counters, p)
  {
    assert forall i :: 0 <= i < N ==> CounterDelta(b[i]) == AxisDelta(b[i]);
  }

  /** Counters of axes without a step bit stay as they are. */
  lemma CountersOnlyOnStep(counters: Steps4, b: AxisSteps, i: nat)
    requires i < N
    ensures b[i].step == 0 ==> CountersAfter(counters, b)[i] == counters[i]
    ensures b[i].step == 1 ==> CountersAfter(counters, b)[i] - counters[i] in {-1, 1}
  {
  }
}
