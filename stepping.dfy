/**
 * Replaying multistep commands into step positions, and the outcome of a
 * stepping executor's run.  The two executors live in stepping_sim.dfy and
 * stepping_timer.dfy.
 */
module Stepping {

  import opened DistanceT
  import opened SteppingCommands
  import opened Ticks

  /** How exec ends: normally, or by throwing execution_terminated, whose
      delta_steps is the position reported with it. */
  datatype ExecOutcome = Completed | Terminated(delta: Steps4)

  /** The answer of the on_execution_break callback when asked at tick `t`;
      the default callback answers 0. */
  function Reply(replies: map<nat, int>, t: nat): int
  {
    if t in replies then replies[t] else 0
  }

  /** The number of ticks replayed for a cut-off `k`: all ticks when k is
      negative or beyond the end, otherwise k. */
  function Cut(k: int, total: nat): (r: nat)
    ensures r <= total
    ensures k < 0 || k >= total ==> r == total
    ensures 0 <= k <= total ==> r == k
  {
    if k < 0 || k > total then total else k
  }

  /** One tick: every axis moves by step·(2·dir − 1). */
  method AdvanceTick(p: Steps4, b: AxisSteps) returns (q: Steps4)
    ensures q == ApplyTick(p, b)
  {
    q := p;
    for j := 0 to N
      invariant forall k :: 0 <= k < j ==> q[k] == p[k] + AxisDelta(b[k])
      invariant forall k :: j <= k < N ==> q[k] == p[k]
    {
      q := q[j := q[j] + b[j].step * (b[j].dir * 2 - 1)];
    }
  }

  /** One tick after the ticks `done`: the position after it, which is also
      the next element of the trace. */
  method ReplayTick(b: AxisSteps, ghost done: seq<AxisSteps>, steps: Steps4) returns (next: Steps4)
    requires steps == Final(Zero(), done)
    ensures next == Final(Zero(), done + [b])
    ensures Trace(Zero(), done + [b]) == Trace(Zero(), done) + [next]
  {
    FinalSnoc(Zero(), done, b);
    next := AdvanceTick(steps, b);
  }

  /** The inner loop of hardware_commands_to_steps: the ticks of command j. */
  method TraceCommand(cs: seq<Multistep>, j: nat, steps: Steps4, r: seq<Steps4>, ghost done: seq<AxisSteps>)
    returns (steps2: Steps4, r2: seq<Steps4>, ghost done2: seq<AxisSteps>)
    requires j < |cs| && done == Expand(cs[..j])
    requires steps == Final(Zero(), done) && r == Trace(Zero(), done)
    ensures done2 == Expand(cs[..j + 1])
    ensures steps2 == Final(Zero(), done2) && r2 == Trace(Zero(), done2)
  {
    steps2, r2, done2 := steps, r, done;
    var i := 0;
    while i < cs[j].count
      invariant 0 <= i && (i <= cs[j].count || i == 0)
      invariant done2 == done + Repeat(cs[j].b, i)
      invariant steps2 == Final(Zero(), done2) && r2 == Trace(Zero(), done2)
      decreases cs[j].count - i
    {
      steps2 := ReplayTick(cs[j].b, done2, steps2);
      r2 := r2 + [steps2];
      RepeatSnoc(done, cs[j].b, i);
      done2 := done2 + [cs[j].b];
      i := i + 1;
    }
    ExpandNext(cs, j);
  }

  /** hardware_commands_to_steps: one position per tick, starting from zero;
      every position is the previous one moved by that tick. */
  method HardwareCommandsToSteps(cs: seq<Multistep>) returns (r: seq<Steps4>)
    ensures |r| == TickCount(cs)
    ensures r == Trace(Zero(), Expand(cs))
  {
    r := [];
    var steps := Zero();
    ghost var done: seq<AxisSteps> := [];
    for j := 0 to |cs|
      invariant done == Expand(cs[..j])
      invariant steps == Final(Zero(), done) && r == Trace(Zero(), done)
    {
      steps, r, done := TraceCommand(cs, j, steps, r, done);
    }
    assert cs[..|cs|] == cs;
  }

  /** Stopping at the cut-off k inside command j: the ticks replayed so far
      are the first Cut(k, total) ticks. */
  lemma CutInCommand(cs: seq<Multistep>, j: nat, i: nat, k: int)
    requires j < |cs| && i <= cs[j].count && k == TickCount(cs[..j]) + i
    ensures Expand(cs)[..Cut(k, TickCount(cs))] == Expand(cs[..j]) + Repeat(cs[j].b, i)
  {
    ExpandPrefixAt(cs, j, i);
  }

  /** The inner loop of hardware_commands_to_last_position_after_given_steps:
      the ticks of one command after the ticks `done`, stopping once the
      counter `itt` reaches the cut-off k; `i` is the number replayed. */
  method ReplayCommand(c: Multistep, k: int, steps: Steps4, itt: int, ghost done: seq<AxisSteps>)
    returns (cut: bool, steps2: Steps4, itt2: int, i: nat)
    requires steps == Final(Zero(), done) && (k < 0 || itt <= k)
    ensures itt2 == itt + i && steps2 == Final(Zero(), done + Repeat(c.b, i))
    ensures cut ==> i <= c.count && itt2 == k
    ensures !cut ==> i == (if c.count <= 0 then 0 else c.count) && (k < 0 || itt2 <= k)
  {
    steps2, itt2, i := steps, itt, 0;
    ghost var done2 := done;
    while i < c.count
      invariant i <= c.count || i == 0
      invariant itt2 == itt + i && (k < 0 || itt2 <= k)
      invariant done2 == done + Repeat(c.b, i) && steps2 == Final(Zero(), done2)
      decreases c.count - i
    {
      if k >= 0 && itt2 >= k {
        return true, steps2, itt2, i;
      }
      steps2 := ReplayTick(c.b, done2, steps2);
      RepeatSnoc(done, c.b, i);
      done2 := done2 + [c.b];
      itt2 := itt2 + 1;
      i := i + 1;
    }
    cut := false;
  }

  /** hardware_commands_to_last_position_after_given_steps: the position after
      the first Cut(k, total) ticks. */
  method LastPositionAfter(cs: seq<Multistep>, k: int) returns (r: Steps4)
    ensures r == Final(Zero(), Expand(cs)[..Cut(k, TickCount(cs))])
  {
    var steps := Zero();
    var itt := 0;
    for j := 0 to |cs|
      invariant itt == TickCount(cs[..j]) && (k < 0 || itt <= k)
      invariant steps == Final(Zero(), Expand(cs[..j]))
    {
      var cut, i;
      cut, steps, itt, i := ReplayCommand(cs[j], k, steps, itt, Expand(cs[..j]));
      if cut {
        CutInCommand(cs, j, i, k);
        return steps;
      }
      ExpandNext(cs, j);
    }
    assert cs[..|cs|] == cs;
    assert Expand(cs)[..TickCount(cs)] == Expand(cs);
    r := steps;
  }

  /** The cut-off position is an element of the replayed trace: zero for
      k = 0, element k − 1 for 1 <= k <= total, the final position for
      negative k or k beyond the end. */
  lemma LastPositionMeaning(cs: seq<Multistep>, k: int)
    ensures k == 0 ==> Final(Zero(), Expand(cs)[..Cut(k, TickCount(cs))]) == Zero()
    ensures 1 <= k <= TickCount(cs) ==>
      Final(Zero(), Expand(cs)[..Cut(k, TickCount(cs))]) == Trace(Zero(), Expand(cs))[k - 1]
    ensures (k < 0 || k >= TickCount(cs)) ==>
      Final(Zero(), Expand(cs)[..Cut(k, TickCount(cs))]) == Final(Zero(), Expand(cs))
  {
    assert Expand(cs)[..TickCount(cs)] == Expand(cs);
    if 1 <= k <= TickCount(cs) {
      TraceIsPrefixFinals(Zero(), Expand(cs), k - 1);
    }
  }

  // ---------------------------------------------------------------------------
  // hardware_commands_to_steps_count

  /** Which repetition of its command tick `k` is. */
  function PositionInCommand(cs: seq<Multistep>, k: nat): nat
    requires k < TickCount(cs)
  {
    var pre := cs[..|cs| - 1];
    if k >= TickCount(pre) then k - TickCount(pre) else PositionInCommand(pre, k)
  }

  lemma {:induction false} PositionInCommandAt(cs: seq<Multistep>, j: nat, i: nat)
    requires j < |cs| && i < cs[j].count
    requires TickCount(cs[..j]) + i < TickCount(cs)
    ensures PositionInCommand(cs, TickCount(cs[..j]) + i) == i
  {
    var pre := cs[..|cs| - 1];
    var k := TickCount(cs[..j]) + i;
    if j == |cs| - 1 {
      assert pre == cs[..j];
    } else {
      TickCountStep(cs, j);
      TickCountMono(cs, j + 1, |cs| - 1);
      assert pre[..j] == cs[..j];
      TickCountStep(pre, j);
      PositionInCommandAt(pre, j, i);
    }
  }

  /** hardware_commands_to_steps_count as written: without a cut-off it is
      the total tick count, but at a cut-off it returns the loop counter of
      the current command instead of the number of ticks counted so far. */
  method StepsCountAsWritten(cs: seq<Multistep>, k: int) returns (r: int)
    ensures r == (if 0 <= k < TickCount(cs) then PositionInCommand(cs, k) else TickCount(cs))
  {
    var itt := 0;
    for j := 0 to |cs|
      invariant itt == TickCount(cs[..j]) <= TickCount(cs)
      invariant k < 0 || itt <= k
    {
      TickCountStep(cs, j);
      TickCountMono(cs, j + 1, |cs|);
      var i := 0;
      while i < cs[j].count
        invariant 0 <= i && (i <= cs[j].count || i == 0)
        invariant TickCount(cs[..j]) + i <= TickCount(cs)
        invariant itt == TickCount(cs[..j]) + i
        invariant k < 0 || itt <= k
        decreases cs[j].count - i
      {
        ExpandAt(cs, j, i);
        if k >= 0 && itt >= k {
          PositionInCommandAt(cs, j, i);
          return i;
        }
        itt := itt + 1;
        i := i + 1;
      }
      assert cs[..|cs|] == cs;
    }
    assert cs[..|cs|] == cs;
    r := itt;
  }

  /** hardware_commands_to_steps_count as its sibling
      hardware_commands_to_last_position_after_given_steps counts: the number
      of ticks replayed up to the cut-off. */
  method StepsCount(cs: seq<Multistep>, k: int) returns (r: int)
    ensures r == Cut(k, TickCount(cs))
    ensures r == |Expand(cs)[..Cut(k, TickCount(cs))]|
  {
    var itt := 0;
    for j := 0 to |cs|
      invariant itt == TickCount(cs[..j]) <= TickCount(cs)
      invariant k < 0 || itt <= k
    {
      TickCountStep(cs, j);
      TickCountMono(cs, j + 1, |cs|);
      var i := 0;
      while i < cs[j].count
        invariant 0 <= i && (i <= cs[j].count || i == 0)
        invariant TickCount(cs[..j]) + i <= TickCount(cs)
        invariant itt == TickCount(cs[..j]) + i
        invariant k < 0 || itt <= k
        decreases cs[j].count - i
      {
        ExpandAt(cs, j, i);
        if k >= 0 && itt >= k {
          return itt;
        }
        itt := itt + 1;
        i := i + 1;
      }
      assert cs[..|cs|] == cs;
    }
    assert cs[..|cs|] == cs;
    r := itt;
  }

  /** Two commands of two ticks each, cut off after three ticks: three ticks
      were replayed, but the as-written count reports 1. */
  lemma StepsCountCutOffDiffers()
    ensures var x := Multistep([Idle, Idle, Idle, Idle], 2);
      PositionInCommand([x, x], 3) == 1 && Cut(3, TickCount([x, x])) == 3
  {
    var x := Multistep([Idle, Idle, Idle, Idle], 2);
    var cs := [x, x];
    assert cs[..1] == [x];
    assert [x][..0] == [];
    assert TickCount([x]) == 2;
    assert TickCount(cs) == 4;
  }
}
