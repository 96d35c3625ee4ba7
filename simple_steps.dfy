/**
 * The simple step generator: the distance between two step positions, the
 * run-length merging of tick commands, and `chase_steps`, which walks one
 * step per axis per tick from a start position to a destination and appends
 * the ticks to a command list.
 */
module SimpleSteps {

  import opened DistanceT
  import opened SteppingCommands
  import opened Ticks

  /** A run is not extended once its count exceeds this value. */
  const CountCap: int := 0x0fffffff

  const IdleAxes: AxisSteps := [Idle, Idle, Idle, Idle]

  function AbsDiff(a: int, b: int): nat { if a >= b then a - b else b - a }

  function Max(a: int, b: int): int { if a >= b then a else b }

  // ---------------------------------------------------------------------------
  // steps_remaining

  /** The largest axis distance among the first `k` axes. */
  function RemainingPrefix(a: Steps4, b: Steps4, k: nat): nat
    requires k <= N
  {
    if k == 0 then 0 else Max(AbsDiff(a[k - 1], b[k - 1]), RemainingPrefix(a, b, k - 1))
  }

  /** RemainingPrefix bounds every distance among the first `k` axes and is
      one of them. */
  lemma {:induction false} RemainingPrefixIsMax(a: Steps4, b: Steps4, k: nat)
    requires k <= N
    ensures forall i :: 0 <= i < k ==> AbsDiff(a[i], b[i]) <= RemainingPrefix(a, b, k)
    ensures k > 0 ==> exists i :: 0 <= i < k && AbsDiff(a[i], b[i]) == RemainingPrefix(a, b, k)
  {
    if k > 0 {
      RemainingPrefixIsMax(a, b, k - 1);
      if AbsDiff(a[k - 1], b[k - 1]) < RemainingPrefix(a, b, k - 1) {
        var i :| 0 <= i < k - 1 && AbsDiff(a[i], b[i]) == RemainingPrefix(a, b, k - 1);
      }
    }
  }

  /** The number of ticks needed to get from `a` to `b`: the largest axis
      distance. */
  function Remaining(a: Steps4, b: Steps4): (r: nat)
    ensures forall i :: 0 <= i < N ==> AbsDiff(a[i], b[i]) <= r
    ensures exists i :: 0 <= i < N && AbsDiff(a[i], b[i]) == r
  {
    RemainingPrefixIsMax(a, b, N);
    RemainingPrefix(a, b, N)
  }

  /** steps_remaining: a max-accumulating loop over the axes. */
  method StepsRemaining(a: Steps4, b: Steps4) returns (r: int)
    ensures r == Remaining(a, b)
    ensures r == 0 <==> a == b
  {
    r := 0;
    for i := 0 to N
      invariant r == RemainingPrefix(a, b, i)
    {
      r := Max(AbsDiff(a[i], b[i]), r);
    }
    if r == 0 {
      RemainingPrefixIsMax(a, b, N);
      assert forall i :: 0 <= i < N ==> a[i] == b[i];
    }
  }

  // ---------------------------------------------------------------------------
  // Run-length merging, shared by collapse_repeated_steps and chase_steps.

  /** Append `e`, adding its count to the last run instead when that run is
      the same command and its count has not exceeded the cap. */
  function PushMerged(ret: seq<Multistep>, e: Multistep): seq<Multistep>
  {
    if ret == [] || !SameCommand(e, ret[|ret| - 1]) || ret[|ret| - 1].count > CountCap then ret + [e]
    else ret[..|ret| - 1] + [ret[|ret| - 1].(count := ret[|ret| - 1].count + e.count)]
  }

  /** PushMerged applied to each command of `es` in order. */
  function PushAll(ret: seq<Multistep>, es: seq<Multistep>): seq<Multistep>
  {
    if es == [] then ret else PushMerged(PushAll(ret, es[..|es| - 1]), es[|es| - 1])
  }

  /** No two neighbouring runs could have been merged. */
  predicate Maximal(cs: seq<Multistep>)
  {
    forall k :: 0 <= k < |cs| - 1 ==> !SameCommand(cs[k], cs[k + 1]) || cs[k].count > CountCap
  }

  predicate PositiveCounts(cs: seq<Multistep>)
  {
    forall k :: 0 <= k < |cs| ==> cs[k].count > 0
  }

  /** Merging never changes the ticks: the pushed command's ticks are
      appended to those already there. */
  lemma PushMergedExpand(ret: seq<Multistep>, e: Multistep)
    requires NonNegativeCounts(ret) && e.count >= 0
    ensures Expand(PushMerged(ret, e)) == Expand(ret) + Repeat(e.b, e.count)
    ensures NonNegativeCounts(PushMerged(ret, e))
  {
    if ret == [] || !SameCommand(e, ret[|ret| - 1]) || ret[|ret| - 1].count > CountCap {
      PushAppendExpand(ret, e);
    } else {
      var init, last := ret[..|ret| - 1], ret[|ret| - 1];
      assert ret == init + [last];
      PushMergeExpand(init, last, e);
    }
    PushMergedNonNegative(ret, e);
  }

  lemma PushAppendExpand(ret: seq<Multistep>, e: Multistep)
    requires ret == [] || !SameCommand(e, ret[|ret| - 1]) || ret[|ret| - 1].count > CountCap
    ensures Expand(PushMerged(ret, e)) == Expand(ret) + Repeat(e.b, e.count)
  {
    ExpandAppend(ret, [e]);
    ExpandSingle(e);
  }

  lemma PushMergeExpand(init: seq<Multistep>, last: Multistep, e: Multistep)
    requires SameCommand(e, last) && 0 <= last.count <= CountCap && e.count >= 0
    ensures Expand(PushMerged(init + [last], e)) == Expand(init + [last]) + Repeat(e.b, e.count)
  {
    var ret := init + [last];
    assert ret[..|ret| - 1] == init;
    assert SameCommand(e, last) <==> e.b == last.b;
    AddToLastExpand(init, last, e.count);
  }

  lemma PushMergedNonNegative(ret: seq<Multistep>, e: Multistep)
    requires NonNegativeCounts(ret) && e.count >= 0
    ensures NonNegativeCounts(PushMerged(ret, e))
  {
  }

  /** Adding `n` to the count of the last command appends `n` of its ticks. */
  lemma AddToLastExpand(init: seq<Multistep>, last: Multistep, n: nat)
    requires last.count >= 0
    ensures Expand(init + [last.(count := last.count + n)]) == Expand(init + [last]) + Repeat(last.b, n)
  {
    var bigger := last.(count := last.count + n);
    ExpandAppend(init, [last]);
    ExpandSingle(last);
    ExpandAppend(init, [bigger]);
    ExpandSingle(bigger);
    RepeatAdd(last.b, last.count, n);
    assert Expand([bigger]) == Expand([last]) + Repeat(last.b, n);
  }

  /** Merging keeps every count positive. */
  lemma PushMergedPositive(ret: seq<Multistep>, e: Multistep)
    requires PositiveCounts(ret) && e.count > 0
    ensures PositiveCounts(PushMerged(ret, e))
  {
  }

  /** Merging keeps the runs maximal. */
  lemma PushMergedMaximal(ret: seq<Multistep>, e: Multistep)
    requires Maximal(ret)
    ensures Maximal(PushMerged(ret, e))
  {
    if ret == [] || !SameCommand(e, ret[|ret| - 1]) || ret[|ret| - 1].count > CountCap {
      if ret != [] {
        SameCommandIsEquivalence(ret[|ret| - 1], e, e);
      }
    } else if |ret| > 1 {
      var last := ret[|ret| - 1];
      var r := PushMerged(ret, e);
      SameCommandIgnoresCount(ret[|ret| - 2], last, ret[|ret| - 2].count, last.count + e.count);
      assert forall k :: 0 <= k < |r| - 1 ==> r[k] == ret[k];
    }
  }

  /** Merging adds the pushed count to the sum of counts. */
  lemma PushMergedCountSum(ret: seq<Multistep>, e: Multistep)
    ensures CountSum(PushMerged(ret, e)) == CountSum(ret) + e.count
  {
    if ret == [] || !SameCommand(e, ret[|ret| - 1]) || ret[|ret| - 1].count > CountCap {
      CountSumAppend(ret, [e]);
      assert [e][..0] == [];
    } else {
      var last := ret[|ret| - 1];
      var init := ret[..|ret| - 1];
      assert ret == init + [last];
      CountSumAppend(init, [last]);
      CountSumAppend(init, [last.(count := last.count + e.count)]);
      assert [last][..0] == [];
      assert [last.(count := last.count + e.count)][..0] == [];
    }
  }

  lemma {:induction false} PushAllExpand(ret: seq<Multistep>, es: seq<Multistep>)
    requires NonNegativeCounts(ret) && NonNegativeCounts(es)
    ensures Expand(PushAll(ret, es)) == Expand(ret) + Expand(es)
    ensures NonNegativeCounts(PushAll(ret, es))
    decreases |es|
  {
    if es != [] {
      var init := es[..|es| - 1];
      PushAllExpand(ret, init);
      PushMergedExpand(PushAll(ret, init), es[|es| - 1]);
    }
  }

  /** PushAll keeps everything before the last run of `ret`; that run keeps
      its command, and its count only grows (by merging the first pushed
      command). */
  lemma {:induction false} PushAllKeepsPrefix(ret: seq<Multistep>, es: seq<Multistep>)
    requires |ret| > 0 && NonNegativeCounts(es)
    ensures var r := PushAll(ret, es);
      |r| >= |ret| && r[..|ret| - 1] == ret[..|ret| - 1]
      && r[|ret| - 1].b == ret[|ret| - 1].b && r[|ret| - 1].count >= ret[|ret| - 1].count
    ensures var r := PushAll(ret, es);
      (r[|ret| - 1] != ret[|ret| - 1] || (|es| > 0 && |r| == |ret|)) ==>
        (SameCommand(es[0], ret[|ret| - 1]) && ret[|ret| - 1].count <= CountCap)
    decreases |es|
  {
    if es != [] {
      var init := es[..|es| - 1];
      PushAllKeepsPrefix(ret, init);
      var q := PushAll(ret, init);
      var e := es[|es| - 1];
      if |init| == 0 {
        assert q == ret;
      } else {
        assert init[0] == es[0];
      }
    }
  }

  // ---------------------------------------------------------------------------
  // collapse_repeated_steps

  /** The commands with count > 0, merged into runs. */
  function Collapsed(cs: seq<Multistep>): seq<Multistep>
  {
    if cs == [] then []
    else if cs[|cs| - 1].count > 0 then PushMerged(Collapsed(cs[..|cs| - 1]), cs[|cs| - 1])
    else Collapsed(cs[..|cs| - 1])
  }

  lemma CollapsedStep(cs: seq<Multistep>, i: nat)
    requires i < |cs|
    ensures Collapsed(cs[..i + 1]) ==
      if cs[i].count > 0 then PushMerged(Collapsed(cs[..i]), cs[i]) else Collapsed(cs[..i])
  {
    assert cs[..i + 1][..i] == cs[..i];
  }

  /** The body of collapse_repeated_steps' loop for a command with ticks:
      append it, or add its count to the last command when that one is the
      same and not yet over the cap. */
  method MergeInto(r: seq<Multistep>, e: Multistep) returns (r2: seq<Multistep>)
    ensures r2 == PushMerged(r, e)
  {
    if |r| == 0 || !SameCommand(e, r[|r| - 1]) {
      r2 := r + [e];
    } else if r[|r| - 1].count > CountCap {
      r2 := r + [e];
    } else {
      r2 := r[..|r| - 1] + [r[|r| - 1].(count := r[|r| - 1].count + e.count)];
    }
  }

  /** collapse_repeated_steps, as the loop of the source. */
  method CollapseRepeatedSteps(cs: seq<Multistep>) returns (r: seq<Multistep>)
    ensures r == Collapsed(cs)
    ensures Expand(r) == Expand(cs)
    ensures PositiveCounts(r) && Maximal(r)
    ensures CountSum(r) == TickCount(cs)
    ensures cs == [] ==> r == []
  {
    if |cs| == 0 {
      return [];
    }
    r := [];
    for i := 0 to |cs|
      invariant r == Collapsed(cs[..i])
    {
      CollapsedStep(cs, i);
      if cs[i].count > 0 {
        r := MergeInto(r, cs[i]);
      }
    }
    assert cs[..|cs|] == cs;
    CollapsedProperties(cs);
  }

  /** Collapsing keeps the ticks and their order, leaves only positive
      counts, merges every run it may, and keeps the number of ticks. */
  lemma {:induction false} CollapsedProperties(cs: seq<Multistep>)
    ensures Expand(Collapsed(cs)) == Expand(cs)
    ensures PositiveCounts(Collapsed(cs)) && Maximal(Collapsed(cs))
    ensures CountSum(Collapsed(cs)) == TickCount(cs)
  {
    if cs != [] {
      var init := cs[..|cs| - 1];
      var e := cs[|cs| - 1];
      CollapsedProperties(init);
      var c := Collapsed(init);
      assert NonNegativeCounts(c);
      if e.count > 0 {
        PushMergedExpand(c, e);
        PushMergedPositive(c, e);
        PushMergedMaximal(c, e);
        PushMergedCountSum(c, e);
      } else {
        assert Repeat(e.b, e.count) == [];
      }
    }
  }

  // ---------------------------------------------------------------------------
  // chase_steps

  /** One axis of one tick: a step toward the destination, or no step (the
      direction bit then keeps its previous value). */
  function AxisTick(s: int, d: int, c: SingleStep): (int, SingleStep)
  {
    if d > s then (s + 1, SingleStep(1, 1))
    else if d < s then (s - 1, SingleStep(1, 0))
    else (s, SingleStep(0, c.dir))
  }

  /** The position after one tick toward `dest`. */
  function TickPos(steps: Steps4, dest: Steps4): Steps4
  {
    seq(N, i requires 0 <= i < N => AxisTick(steps[i], dest[i], Idle).0)
  }

  /** The command of one tick toward `dest`, given the previous command. */
  function TickCmd(steps: Steps4, dest: Steps4, b: AxisSteps): AxisSteps
  {
    seq(N, i requires 0 <= i < N => AxisTick(steps[i], dest[i], b[i]).1)
  }

  /** A tick brings every axis one closer, so the distance drops by one. */
  lemma {:induction false} TickPosCloser(steps: Steps4, dest: Steps4, k: nat)
    requires k <= N
    ensures RemainingPrefix(TickPos(steps, dest), dest, k) == Max(RemainingPrefix(steps, dest, k) - 1, 0)
  {
    if k > 0 {
      TickPosCloser(steps, dest, k - 1);
      AxisTickCloser(steps[k - 1], dest[k - 1]);
      assert TickPos(steps, dest)[k - 1] == AxisTick(steps[k - 1], dest[k - 1], Idle).0;
    }
  }

  /** One axis of a tick comes one closer to its destination, unless it is
      already there. */
  lemma AxisTickCloser(s: int, d: int)
    ensures AbsDiff(AxisTick(s, d, Idle).0, d) == Max(AbsDiff(s, d) - 1, 0)
  {
  }

  lemma TickPosDecreases(steps: Steps4, dest: Steps4)
    requires steps != dest
    ensures Remaining(TickPos(steps, dest), dest) == Remaining(steps, dest) - 1
  {
    TickPosCloser(steps, dest, N);
    var i :| 0 <= i < N && steps[i] != dest[i];
    assert AbsDiff(steps[i], dest[i]) > 0;
  }

  /** The tick command moves the position exactly to the next position. */
  lemma TickCmdMoves(steps: Steps4, dest: Steps4, b: AxisSteps)
    ensures ApplyTick(steps, TickCmd(steps, dest, b)) == TickPos(steps, dest)
  {
  }

  /** The ticks chase_steps generates from `steps`, `b` being the command of
      the previous tick. */
  function ChaseTicks(steps: Steps4, dest: Steps4, b: AxisSteps): seq<AxisSteps>
    decreases Remaining(steps, dest)
  {
    if steps == dest then []
    else
      TickPosDecreases(steps, dest);
      var b' := TickCmd(steps, dest, b);
      [b'] + ChaseTicks(TickPos(steps, dest), dest, b')
  }

  /** Every tick as a command with count 1. */
  function Units(ts: seq<AxisSteps>): (r: seq<Multistep>)
    ensures |r| == |ts| && NonNegativeCounts(r)
  {
    seq(|ts|, k requires 0 <= k < |ts| => Multistep(ts[k], 1))
  }

  /** At the destination a tick clears every step bit and keeps the directions. */
  lemma TickCmdAtRest(steps: Steps4, b: AxisSteps)
    ensures TickCmd(steps, steps, b) == seq(N, i requires 0 <= i < N => SingleStep(0, b[i].dir))
    ensures TickCmd(steps, steps, IdleAxes) == IdleAxes
  {
  }

  /** One iteration of chase_steps' loop produces the next generated tick. */
  lemma ChaseInvariantStep(all: seq<AxisSteps>, done: seq<AxisSteps>, steps: Steps4, dest: Steps4, b: AxisSteps)
    requires all == done + ChaseTicks(steps, dest, b)
    ensures steps == dest ==> all == done
    ensures steps != dest ==>
      Remaining(TickPos(steps, dest), dest) < Remaining(steps, dest)
      && all == (done + [TickCmd(steps, dest, b)]) + ChaseTicks(TickPos(steps, dest), dest, TickCmd(steps, dest, b))
  {
    if steps != dest {
      TickPosDecreases(steps, dest);
    }
  }

  lemma PushAllUnitsSnoc(ret: seq<Multistep>, done: seq<AxisSteps>, b: AxisSteps)
    ensures PushAll(ret, Units(done + [b])) == PushMerged(PushAll(ret, Units(done)), Multistep(b, 1))
  {
    var us := Units(done + [b]);
    assert us[..|us| - 1] == Units(done);
  }

  /** What chase_steps leaves in `ret`. */
  function ChaseResult(ret: seq<Multistep>, start: Steps4, dest: Steps4): seq<Multistep>
  {
    var ts := ChaseTicks(start, dest, IdleAxes);
    if ts == [] then ret + [Multistep(IdleAxes, 1)] else PushAll(ret, Units(ts))
  }

  /** The body of chase_steps' do-while: one pass over the axes, updating the
      position and the command in place. */
  method Tick(before: Steps4, dest: Steps4, b0: AxisSteps) returns (steps: Steps4, b: AxisSteps, didMod: bool)
    ensures steps == TickPos(before, dest)
    ensures b == TickCmd(before, dest, b0)
    ensures didMod <==> before != dest
  {
    steps := before;
    b := b0;
    didMod := false;
    for i := 0 to N
      invariant forall k :: 0 <= k < i ==> steps[k] == TickPos(before, dest)[k]
      invariant forall k :: 0 <= k < i ==> b[k] == TickCmd(before, dest, b0)[k]
      invariant forall k :: i <= k < N ==> steps[k] == before[k] && b[k] == b0[k]
      invariant didMod <==> exists k :: 0 <= k < i && before[k] != dest[k]
    {
      if dest[i] > steps[i] {
        steps := steps[i := steps[i] + 1];
        b := b[i := SingleStep(1, 1)];
        didMod := true;
      } else if dest[i] < steps[i] {
        steps := steps[i := steps[i] - 1];
        b := b[i := SingleStep(1, 0)];
        didMod := true;
      } else {
        b := b[i := SingleStep(0, b[i].dir)];
      }
    }
  }

  /** chase_steps (the overload appending to `ret`): a do-while loop making
      one tick per iteration until no axis moved. */
  method ChaseSteps(ret0: seq<Multistep>, start: Steps4, dest: Steps4) returns (ret: seq<Multistep>)
    ensures ret == ChaseResult(ret0, start, dest)
  {
    ret := ret0;
    var steps := start;
    var cmd := Multistep(IdleAxes, 1);
    var didMod := true;
    var pushed := 0;
    ghost var done: seq<AxisSteps> := [];
    ghost var all := ChaseTicks(start, dest, IdleAxes);
    assert Units([]) == [];
    while didMod
      invariant cmd.count == 1
      invariant ret == PushAll(ret0, Units(done)) && pushed == |done|
      invariant didMod ==> all == done + ChaseTicks(steps, dest, cmd.b)
      invariant !didMod ==> all == done
      invariant pushed == 0 ==> cmd.b == IdleAxes
      decreases Remaining(steps, dest), didMod
    {
      var before := steps;
      var b;
      steps, b, didMod := Tick(before, dest, cmd.b);
      ChaseInvariantStep(all, done, before, dest, cmd.b);
      if pushed == 0 && !didMod {
        TickCmdAtRest(before, IdleAxes);
      }
      cmd := Multistep(b, 1);
      if didMod {
        pushed := pushed + 1;
        ret := PushMerged(ret, cmd);
        PushAllUnitsSnoc(ret0, done, b);
        done := done + [b];
      }
    }
    if pushed == 0 {
      ret := ret + [cmd];
    }
    assert ChaseResult(ret0, start, dest) == if all == [] then ret0 + [Multistep(IdleAxes, 1)] else PushAll(ret0, Units(all));
  }

  /** The ticks end exactly at the destination. */
  lemma {:induction false} ChaseTicksReach(steps: Steps4, dest: Steps4, b: AxisSteps)
    ensures Final(steps, ChaseTicks(steps, dest, b)) == dest
    decreases Remaining(steps, dest)
  {
    if steps != dest {
      TickPosDecreases(steps, dest);
      var b' := TickCmd(steps, dest, b);
      ChaseTicksReach(TickPos(steps, dest), dest, b');
      FinalCons(steps, b', ChaseTicks(TickPos(steps, dest), dest, b'));
      TickCmdMoves(steps, dest, b);
    }
  }

  /** There are as many ticks as the largest axis distance. */
  lemma {:induction false} ChaseTicksLength(steps: Steps4, dest: Steps4, b: AxisSteps)
    ensures |ChaseTicks(steps, dest, b)| == Remaining(steps, dest)
    decreases Remaining(steps, dest)
  {
    if steps != dest {
      TickPosDecreases(steps, dest);
      ChaseTicksLength(TickPos(steps, dest), dest, TickCmd(steps, dest, b));
    } else {
      assert forall i :: 0 <= i < N ==> AbsDiff(steps[i], dest[i]) == 0;
    }
  }

  /** The tick a position `p` gets: one step toward `dest` on every axis not
      there yet, no step on the others. */
  predicate StepsToward(p: Steps4, dest: Steps4, t: AxisSteps)
  {
    forall i :: 0 <= i < N ==>
      (p[i] < dest[i] ==> t[i] == SingleStep(1, 1))
      && (p[i] > dest[i] ==> t[i] == SingleStep(1, 0))
      && (p[i] == dest[i] ==> t[i].step == 0)
  }

  /** Every generated tick steps toward the destination from the position
      reached by the ticks before it. */
  lemma {:induction false} ChaseTicksToward(steps: Steps4, dest: Steps4, b: AxisSteps, k: nat)
    requires k < |ChaseTicks(steps, dest, b)|
    ensures var ts := ChaseTicks(steps, dest, b);
      StepsToward(Final(steps, ts[..k]), dest, ts[k])
    decreases k
  {
    var ts := ChaseTicks(steps, dest, b);
    TickPosDecreases(steps, dest);
    var b' := TickCmd(steps, dest, b);
    var rest := ChaseTicks(TickPos(steps, dest), dest, b');
    assert ts == [b'] + rest;
    if k == 0 {
      assert ts[..0] == [];
    } else {
      ChaseTicksToward(TickPos(steps, dest), dest, b', k - 1);
      assert ts[..k] == [b'] + rest[..k - 1];
      FinalCons(steps, b', rest[..k - 1]);
      TickCmdMoves(steps, dest, b);
    }
  }

  lemma {:induction false} UnitsExpand(ts: seq<AxisSteps>)
    ensures Expand(Units(ts)) == ts
  {
    if ts != [] {
      assert Units(ts)[..|ts| - 1] == Units(ts[..|ts| - 1]);
      UnitsExpand(ts[..|ts| - 1]);
    }
  }

  /** The ticks chase_steps appends: the generated ones, or one idle tick
      when start and destination coincide. */
  function ChaseAdded(start: Steps4, dest: Steps4): seq<AxisSteps>
  {
    if start == dest then [IdleAxes] else ChaseTicks(start, dest, IdleAxes)
  }

  /** chase_steps appends Remaining(start, dest) ticks (one idle tick when
      that is 0) after the ticks already in `ret`, and replaying them from
      `start` ends at `dest`. */
  lemma ChaseStepsMeaning(ret: seq<Multistep>, start: Steps4, dest: Steps4)
    requires NonNegativeCounts(ret)
    ensures Expand(ChaseResult(ret, start, dest)) == Expand(ret) + ChaseAdded(start, dest)
    ensures |ChaseAdded(start, dest)| == (if start == dest then 1 else Remaining(start, dest))
    ensures Final(start, ChaseAdded(start, dest)) == dest
    ensures start == dest ==> ChaseResult(ret, start, dest) == ret + [Multistep(IdleAxes, 1)]
  {
    var ts := ChaseTicks(start, dest, IdleAxes);
    ChaseTicksLength(start, dest, IdleAxes);
    ChaseTicksReach(start, dest, IdleAxes);
    if start == dest {
      ExpandAppend(ret, [Multistep(IdleAxes, 1)]);
      ExpandSingle(Multistep(IdleAxes, 1));
      assert Repeat(IdleAxes, 1) == [IdleAxes];
      assert [IdleAxes][..0] == [];
      assert Final(start, [IdleAxes]) == ApplyTick(start, IdleAxes);
      assert Delta(IdleAxes) == Zero();
    } else {
      PushAllExpand(ret, Units(ts));
      UnitsExpand(ts);
    }
  }

  /** chase_steps changes nothing in `ret` but the count of its last run,
      and that only grows, by merging the first new tick into it. */
  lemma ChaseKeepsPrefix(ret: seq<Multistep>, start: Steps4, dest: Steps4)
    requires |ret| > 0
    ensures var r := ChaseResult(ret, start, dest);
      |r| >= |ret| && r[..|ret| - 1] == ret[..|ret| - 1]
      && r[|ret| - 1].b == ret[|ret| - 1].b && r[|ret| - 1].count >= ret[|ret| - 1].count
    ensures var r := ChaseResult(ret, start, dest);
      r[|ret| - 1] != ret[|ret| - 1] ==>
        (ret[|ret| - 1].count <= CountCap && start != dest
         && ret[|ret| - 1].b == ChaseTicks(start, dest, IdleAxes)[0])
  {
    var ts := ChaseTicks(start, dest, IdleAxes);
    if ts != [] {
      PushAllKeepsPrefix(ret, Units(ts));
      var r := ChaseResult(ret, start, dest);
      if r[|ret| - 1] != ret[|ret| - 1] {
        assert SameCommand(Units(ts)[0], ret[|ret| - 1]) <==> Units(ts)[0].b == ret[|ret| - 1].b;
      }
    } else {
      var r := ChaseResult(ret, start, dest);
      assert r[..|ret|] == ret;
    }
  }
}
