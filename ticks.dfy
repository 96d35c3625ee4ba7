/**
 * What a list of multistep commands means: a sequence of ticks, and the
 * positions reached by applying them one after another.  The replay
 * functions of the stepping layer, the steps analyzer, the step generator
 * and the in-memory driver are all specified in these terms.
 */
module Ticks {

  import opened DistanceT
  import opened SteppingCommands

  /** The signed movement of one axis command: step·(2·dir − 1). */
  function AxisDelta(c: SingleStep): (d: int)
    ensures c.step == 0 ==> d == 0
    ensures c.step == 1 ==> (d == 1 <==> c.dir == 1) && (d == -1 <==> c.dir == 0)
  {
    c.step * (c.dir * 2 - 1)
  }

  /** The movement of one tick on all four axes. */
  function Delta(b: AxisSteps): Steps4
  {
    seq(N, i requires 0 <= i < N => AxisDelta(b[i]))
  }

  /** The position after one tick. */
  function ApplyTick(p: Steps4, b: AxisSteps): Steps4
  {
    ElemAdd(p, Delta(b))
  }

  /** `n` copies of the same tick (none when n <= 0). */
  function Repeat(b: AxisSteps, n: int): (r: seq<AxisSteps>)
    ensures |r| == (if n <= 0 then 0 else n)
    ensures forall k :: 0 <= k < |r| ==> r[k] == b
    decreases if n <= 0 then 0 else n
  {
    if n <= 0 then [] else Repeat(b, n - 1) + [b]
  }

  /** The ticks of a command list: each command repeated `count` times. */
  function Expand(cs: seq<Multistep>): (r: seq<AxisSteps>)
    ensures |r| == TickCount(cs)
  {
    if cs == [] then [] else Expand(cs[..|cs| - 1]) + Repeat(cs[|cs| - 1].b, cs[|cs| - 1].count)
  }

  /** The number of ticks of a command list: the sum of the positive counts. */
  function TickCount(cs: seq<Multistep>): nat
  {
    if cs == [] then 0
    else TickCount(cs[..|cs| - 1]) + (if cs[|cs| - 1].count <= 0 then 0 else cs[|cs| - 1].count)
  }

  /** The sum of all counts, negative ones included. */
  function CountSum(cs: seq<Multistep>): int
  {
    if cs == [] then 0 else CountSum(cs[..|cs| - 1]) + cs[|cs| - 1].count
  }

  predicate NonNegativeCounts(cs: seq<Multistep>)
  {
    forall k :: 0 <= k < |cs| ==> cs[k].count >= 0
  }

  /** The position reached from `p` after the ticks `ts`. */
  function Final(p: Steps4, ts: seq<AxisSteps>): Steps4
  {
    if ts == [] then p else ApplyTick(Final(p, ts[..|ts| - 1]), ts[|ts| - 1])
  }

  /** The position after every tick, in order. */
  function Trace(p: Steps4, ts: seq<AxisSteps>): (r: seq<Steps4>)
    ensures |r| == |ts|
  {
    if ts == [] then [] else Trace(p, ts[..|ts| - 1]) + [Final(p, ts)]
  }

  // ---------------------------------------------------------------------------
  // Lemmas.

  lemma TakeAppend<T>(a: seq<T>, b: seq<T>)
    ensures (a + b)[..|a|] == a
  {
  }

  lemma TakeTake<T>(s: seq<T>, n: nat, m: nat)
    requires m <= n <= |s|
    ensures s[..n][..m] == s[..m]
  {
  }

  lemma TakeInAppend<T>(a: seq<T>, b: seq<T>, i: nat)
    requires i <= |b|
    ensures (a + b)[..|a| + i] == a + b[..i]
  {
  }

  /** One more repetition after the ticks `a`. */
  lemma RepeatSnoc(a: seq<AxisSteps>, b: AxisSteps, i: nat)
    ensures a + Repeat(b, i) + [b] == a + Repeat(b, i + 1)
  {
    assert Repeat(b, i + 1) == Repeat(b, i) + [b];
  }

  lemma {:induction false} RepeatAdd(b: AxisSteps, m: nat, n: nat)
    ensures Repeat(b, m + n) == Repeat(b, m) + Repeat(b, n)
    decreases n
  {
    if n > 0 {
      RepeatAdd(b, m, n - 1);
      assert Repeat(b, m + n) == Repeat(b, m + n - 1) + [b];
    }
  }

  lemma {:induction false} ExpandAppend(cs: seq<Multistep>, ds: seq<Multistep>)
    ensures Expand(cs + ds) == Expand(cs) + Expand(ds)
    decreases |ds|
  {
    if ds == [] {
      assert cs + ds == cs;
    } else {
      var last := ds[|ds| - 1];
      assert (cs + ds)[..|cs + ds| - 1] == cs + ds[..|ds| - 1];
      ExpandAppend(cs, ds[..|ds| - 1]);
    }
  }

  lemma ExpandSingle(c: Multistep)
    ensures Expand([c]) == Repeat(c.b, c.count)
  {
    assert [c][..0] == [];
  }

  lemma {:induction false} TickCountAppend(cs: seq<Multistep>, ds: seq<Multistep>)
    ensures TickCount(cs + ds) == TickCount(cs) + TickCount(ds)
    decreases |ds|
  {
    if ds == [] {
      assert cs + ds == cs;
    } else {
      assert (cs + ds)[..|cs + ds| - 1] == cs + ds[..|ds| - 1];
      TickCountAppend(cs, ds[..|ds| - 1]);
    }
  }

  lemma {:induction false} CountSumAppend(cs: seq<Multistep>, ds: seq<Multistep>)
    ensures CountSum(cs + ds) == CountSum(cs) + CountSum(ds)
    decreases |ds|
  {
    if ds == [] {
      assert cs + ds == cs;
    } else {
      assert (cs + ds)[..|cs + ds| - 1] == cs + ds[..|ds| - 1];
      CountSumAppend(cs, ds[..|ds| - 1]);
    }
  }

  /** Without negative counts the tick count is the plain sum of counts. */
  lemma {:induction false} TickCountIsCountSum(cs: seq<Multistep>)
    requires NonNegativeCounts(cs)
    ensures TickCount(cs) == CountSum(cs)
  {
    if cs != [] {
      TickCountIsCountSum(cs[..|cs| - 1]);
    }
  }

  lemma {:induction false} FinalAppend(p: Steps4, ts: seq<AxisSteps>, us: seq<AxisSteps>)
    ensures Final(p, ts + us) == Final(Final(p, ts), us)
    decreases |us|
  {
    if us == [] {
      assert ts + us == ts;
    } else {
      assert (ts + us)[..|ts + us| - 1] == ts + us[..|us| - 1];
      FinalAppend(p, ts, us[..|us| - 1]);
    }
  }

  lemma FinalCons(p: Steps4, b: AxisSteps, ts: seq<AxisSteps>)
    ensures Final(p, [b] + ts) == Final(ApplyTick(p, b), ts)
  {
    FinalAppend(p, [b], ts);
    assert [b][..0] == [];
  }

  /** The trace lists the final position of every prefix of the ticks. */
  lemma {:induction false} TraceIsPrefixFinals(p: Steps4, ts: seq<AxisSteps>, k: nat)
    requires k < |ts|
    ensures Trace(p, ts)[k] == Final(p, ts[..k + 1])
    decreases |ts|
  {
    if k < |ts| - 1 {
      assert ts[..|ts| - 1][..k + 1] == ts[..k + 1];
      TraceIsPrefixFinals(p, ts[..|ts| - 1], k);
    } else {
      assert ts[..k + 1] == ts;
    }
  }

  /** The trace of a prefix is a prefix of the trace. */
  lemma {:induction false} TracePrefix(p: Steps4, ts: seq<AxisSteps>, k: nat)
    requires k <= |ts|
    ensures Trace(p, ts[..k]) == Trace(p, ts)[..k]
    decreases |ts|
  {
    if k < |ts| {
      assert ts[..|ts| - 1][..k] == ts[..k];
      TracePrefix(p, ts[..|ts| - 1], k);
    } else {
      assert ts[..k] == ts;
    }
  }

  /** Moving the start moves every position of the trace by the same amount. */
  lemma {:induction false} FinalShift(p: Steps4, q: Steps4, ts: seq<AxisSteps>)
    ensures Final(ElemAdd(p, q), ts) == ElemAdd(Final(p, ts), q)
  {
    if ts != [] {
      FinalShift(p, q, ts[..|ts| - 1]);
    }
  }
  /** Each position of the trace is the previous one (or the start) moved by
      one tick. */
  lemma TraceStepwise(p: Steps4, ts: seq<AxisSteps>, k: nat)
    requires k < |ts|
    ensures Trace(p, ts)[k] == ApplyTick(if k == 0 then p else Trace(p, ts)[k - 1], ts[k])
  {
    TraceIsPrefixFinals(p, ts, k);
    assert ts[..k + 1][..k] == ts[..k];
    if k > 0 {
      TraceIsPrefixFinals(p, ts, k - 1);
      assert ts[..k - 1 + 1] == ts[..k];
    }
  }

  /** One more tick moves the final position once and adds it to the trace. */
  lemma FinalSnoc(p: Steps4, ts: seq<AxisSteps>, b: AxisSteps)
    ensures Final(p, ts + [b]) == ApplyTick(Final(p, ts), b)
    ensures Trace(p, ts + [b]) == Trace(p, ts) + [ApplyTick(Final(p, ts), b)]
  {
    assert (ts + [b])[..|ts|] == ts;
  }

  /** Tick t = TickCount(cs[..j]) + i, the i-th repetition of command j,
      extends the executed prefix by cs[j].b. */
  lemma PrefixSnoc(cs: seq<Multistep>, j: nat, i: nat, t: nat)
    requires j < |cs| && i < cs[j].count && t == TickCount(cs[..j]) + i
    ensures t < |Expand(cs)|
    ensures Expand(cs)[..t + 1] == Expand(cs)[..t] + [cs[j].b]
  {
    ExpandAt(cs, j, i);
  }

  lemma TickCountStep(cs: seq<Multistep>, j: nat)
    requires j < |cs|
    ensures TickCount(cs[..j + 1]) == TickCount(cs[..j]) + (if cs[j].count <= 0 then 0 else cs[j].count)
  {
    assert cs[..j + 1][..j] == cs[..j];
  }

  /** A longer prefix of the commands never has fewer ticks. */
  lemma TickCountMono(cs: seq<Multistep>, a: nat, b: nat)
    requires a <= b <= |cs|
    ensures TickCount(cs[..a]) <= TickCount(cs[..b])
  {
    assert cs[..b] == cs[..a] + cs[a..b];
    TickCountAppend(cs[..a], cs[a..b]);
  }

  /** The first TickCount(cs[..j]) + i ticks are those of the commands
      before j followed by i repetitions of command j. */
  lemma ExpandPrefixAt(cs: seq<Multistep>, j: nat, i: nat)
    requires j < |cs| && i <= cs[j].count
    ensures TickCount(cs[..j]) + i <= TickCount(cs)
    ensures Expand(cs)[..TickCount(cs[..j]) + i] == Expand(cs[..j]) + Repeat(cs[j].b, i)
  {
    var whole, upto := Expand(cs), Expand(cs[..j + 1]);
    var before, all := Expand(cs[..j]), Repeat(cs[j].b, cs[j].count);
    ExpandNext(cs, j);
    ExpandPrefixOf(cs, j);
    var m := |before| + i;
    TakeTake(whole, |upto|, m);
    assert whole[..m] == upto[..m];
    TakeInAppend(before, all, i);
    RepeatPrefix(cs[j].b, i, cs[j].count);
  }

  /** The ticks of the first j + 1 commands begin the ticks of all. */
  lemma ExpandPrefixOf(cs: seq<Multistep>, j: nat)
    requires j < |cs|
    ensures |Expand(cs[..j + 1])| <= |Expand(cs)|
    ensures Expand(cs)[..|Expand(cs[..j + 1])|] == Expand(cs[..j + 1])
  {
    assert cs == cs[..j + 1] + cs[j + 1..];
    ExpandAppend(cs[..j + 1], cs[j + 1..]);
    TakeAppend(Expand(cs[..j + 1]), Expand(cs[j + 1..]));
  }

  lemma RepeatPrefix(b: AxisSteps, i: nat, n: nat)
    requires i <= n
    ensures Repeat(b, n)[..i] == Repeat(b, i)
  {
  }

  /** The ticks of the first j + 1 commands: those of the first j followed by
      the repetitions of command j. */
  lemma ExpandNext(cs: seq<Multistep>, j: nat)
    requires j < |cs|
    ensures Expand(cs[..j + 1]) == Expand(cs[..j]) + Repeat(cs[j].b, cs[j].count)
    ensures TickCount(cs[..j + 1]) == TickCount(cs[..j]) + (if cs[j].count <= 0 then 0 else cs[j].count)
  {
    assert cs[..j + 1][..j] == cs[..j];
  }

  /** Tick number TickCount(cs[..j]) + i is the i-th repetition of command j. */
  lemma ExpandAt(cs: seq<Multistep>, j: nat, i: nat)
    requires j < |cs| && i < cs[j].count
    ensures TickCount(cs[..j]) + i < TickCount(cs) == |Expand(cs)|
    ensures Expand(cs)[TickCount(cs[..j]) + i] == cs[j].b
  {
    assert cs == cs[..j] + [cs[j]] + cs[j + 1..];
    ExpandAppend(cs[..j] + [cs[j]], cs[j + 1..]);
    ExpandAppend(cs[..j], [cs[j]]);
    ExpandSingle(cs[j]);
    TickCountStep(cs, j);
    TickCountMono(cs, j + 1, |cs|);
    assert cs[..|cs|] == cs;
  }
}
