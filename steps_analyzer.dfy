/**
 * steps_analyzer: the position after a given tick of a command list,
 * computed by whole-command jumps rather than by replaying every tick, and
 * the index of the last tick.
 */
module StepsAnalyzer {

  import opened Common
  import opened DistanceT
  import opened SteppingCommands
  import opened Ticks

  /** A step vector scaled by `n`. */
  function Scale(n: int, d: Steps4): Steps4
  {
    seq(N, i requires 0 <= i < N => n * d[i])
  }

  /** The movement summed command by command as the analyzer sums it:
      count times the command's per-tick delta, negative counts included. */
  function Displacement(cs: seq<Multistep>): Steps4
  {
    if cs == [] then Zero()
    else ElemAdd(Displacement(cs[..|cs| - 1]), Scale(cs[|cs| - 1].count, Delta(cs[|cs| - 1].b)))
  }

  lemma ScaleZero(x: Steps4, d: Steps4)
    ensures ElemAdd(x, Scale(0, d)) == x
  {
    assert forall i :: 0 <= i < N ==> ElemAdd(x, Scale(0, d))[i] == x[i];
  }

  lemma ScaleSucc(x: Steps4, d: Steps4, n: int)
    ensures ElemAdd(ElemAdd(x, Scale(n, d)), d) == ElemAdd(x, Scale(n + 1, d))
  {
    forall i | 0 <= i < N
      ensures ElemAdd(ElemAdd(x, Scale(n, d)), d)[i] == ElemAdd(x, Scale(n + 1, d))[i]
    {
      assert (n + 1) * d[i] == n * d[i] + d[i];
    }
  }

  /** `n` repetitions of a tick move by n times its delta. */
  lemma {:induction false} FinalRepeat(p: Steps4, ts: seq<AxisSteps>, b: AxisSteps, n: nat)
    ensures Final(p, ts + Repeat(b, n)) == ElemAdd(Final(p, ts), Scale(n, Delta(b)))
    decreases n
  {
    if n == 0 {
      assert ts + Repeat(b, n) == ts;
      ScaleZero(Final(p, ts), Delta(b));
    } else {
      var m := n - 1;
      FinalRepeat(p, ts, b, m);
      RepeatSnoc(ts, b, m);
      FinalSnoc(p, ts + Repeat(b, m), b);
      ScaleSucc(Final(p, ts), Delta(b), m);
    }
  }

  lemma NonNegativePrefix(cs: seq<Multistep>, j: nat)
    requires NonNegativeCounts(cs) && j <= |cs|
    ensures NonNegativeCounts(cs[..j])
  {
    assert forall k :: 0 <= k < j ==> cs[..j][k] == cs[k];
  }

  /** Without negative counts the whole-command jumps reach the replayed
      position. */
  lemma {:induction false} DisplacementIsFinal(cs: seq<Multistep>)
    requires NonNegativeCounts(cs)
    ensures Displacement(cs) == Final(Zero(), Expand(cs))
  {
    if cs != [] {
      var init, last := cs[..|cs| - 1], cs[|cs| - 1];
      NonNegativePrefix(cs, |cs| - 1);
      DisplacementIsFinal(init);
      FinalRepeat(Zero(), Expand(init), last.b, last.count);
    }
  }

  /** Inside command j the position advances linearly: after d of its
      repetitions it is the position before the command plus d times the
      command's delta. */
  lemma LinearInCommand(cs: seq<Multistep>, j: nat, d: nat)
    requires j < |cs| && d <= cs[j].count
    ensures TickCount(cs[..j]) + d <= TickCount(cs)
    ensures Final(Zero(), Expand(cs)[..TickCount(cs[..j]) + d]) ==
      ElemAdd(Final(Zero(), Expand(cs[..j])), Scale(d, Delta(cs[j].b)))
  {
    ExpandPrefixAt(cs, j, d);
    FinalRepeat(Zero(), Expand(cs[..j]), cs[j].b, d);
  }

  /** The early return of steps_from_tick: tick t falls inside command j. */
  lemma TickInCommand(cs: seq<Multistep>, j: nat, t: int)
    requires NonNegativeCounts(cs) && j < |cs|
    requires TickCount(cs[..j]) <= t < TickCount(cs[..j]) + cs[j].count
    ensures t < TickCount(cs) == CountSum(cs)
    ensures ElemAdd(Displacement(cs[..j]), Scale(t - TickCount(cs[..j]), Delta(cs[j].b))) ==
      Final(Zero(), Expand(cs)[..t])
  {
    var d := t - TickCount(cs[..j]);
    assert TickCount(cs[..j]) + d == t;
    NonNegativePrefix(cs, j);
    DisplacementIsFinal(cs[..j]);
    LinearInCommand(cs, j, d);
    TickCountStep(cs, j);
    TickCountMono(cs, j + 1, |cs|);
    assert cs[..|cs|] == cs;
    TickCountIsCountSum(cs);
  }

  /** The sums of the analyzer's loop after command j. */
  lemma DisplacementStep(cs: seq<Multistep>, j: nat)
    requires j < |cs|
    ensures Displacement(cs[..j + 1]) == ElemAdd(Displacement(cs[..j]), Scale(cs[j].count, Delta(cs[j].b)))
    ensures CountSum(cs[..j + 1]) == CountSum(cs[..j]) + cs[j].count
    ensures TickCount(cs[..j + 1]) == TickCount(cs[..j]) + (if cs[j].count <= 0 then 0 else cs[j].count)
  {
    assert cs[..j + 1][..j] == cs[..j];
  }

  /** One jump: every axis moves by n·step·(2·dir − 1). */
  method AddScaled(p: Steps4, n: int, b: AxisSteps) returns (q: Steps4)
    ensures q == ElemAdd(p, Scale(n, Delta(b)))
  {
    q := p;
    for k := 0 to N
      invariant forall m :: 0 <= m < k ==> q[m] == p[m] + n * AxisDelta(b[m])
      invariant forall m :: k <= m < N ==> q[m] == p[m]
    {
      q := q[k := q[k] + n * (b[k].step * (b[k].dir * 2 - 1))];
    }
  }

  /** steps_from_tick: the position after tick t, or None where the source
      throws out_of_range.  For command lists without negative counts this
      is the replayed position after the first t ticks, for 0 <= t <= total,
      and out of range otherwise. */
  method StepsFromTick(cs: seq<Multistep>, t: int) returns (r: Option<Steps4>)
    ensures NonNegativeCounts(cs) ==>
      r == (if 0 <= t <= TickCount(cs) then Some(Final(Zero(), Expand(cs)[..t])) else None)
    ensures NonNegativeCounts(cs) && t == 0 ==> r == Some(Zero())
    ensures NonNegativeCounts(cs) && t == CountSum(cs) ==> r == Some(Final(Zero(), Expand(cs)))
  {
    var steps := Zero();
    var i := 0;
    for j := 0 to |cs|
      invariant i == CountSum(cs[..j]) && steps == Displacement(cs[..j])
      invariant NonNegativeCounts(cs) ==> i == TickCount(cs[..j]) && (t < 0 || i <= t)
    {
      DisplacementStep(cs, j);
      if t >= i && t < i + cs[j].count {
        assert Expand(cs)[..0] == [];
        steps := AddScaled(steps, t - i, cs[j].b);
        if NonNegativeCounts(cs) {
          TickInCommand(cs, j, t);
        }
        return Some(steps);
      }
      steps := AddScaled(steps, cs[j].count, cs[j].b);
      i := i + cs[j].count;
    }
    assert cs[..|cs|] == cs;
    assert Expand(cs)[..0] == [];
    if NonNegativeCounts(cs) {
      DisplacementIsFinal(cs);
      TickCountIsCountSum(cs);
      assert Expand(cs)[..TickCount(cs)] == Expand(cs);
    }
    if i == t {
      r := Some(steps);
    } else {
      r := None;
    }
  }

  /** get_last_tick_index: the sum of all counts, which is the number of
      ticks when no count is negative. */
  method LastTickIndex(cs: seq<Multistep>) returns (r: int)
    ensures r == CountSum(cs)
    ensures NonNegativeCounts(cs) ==> r == TickCount(cs) == |Expand(cs)|
  {
    r := 0;
    for j := 0 to |cs|
      invariant r == CountSum(cs[..j])
    {
      DisplacementStep(cs, j);
      r := r + cs[j].count;
    }
    assert cs[..|cs|] == cs;
    if NonNegativeCounts(cs) {
      TickCountIsCountSum(cs);
    }
  }
}
