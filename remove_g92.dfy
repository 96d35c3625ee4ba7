/**
 * remove_g92_from_gcode: G92 ("this position is now ...") blocks are removed
 * and the coordinate shift they introduce is subtracted from the X, Y, Z and
 * A of the blocks that follow.  Every value is first cut to a multiple of
 * 1/1024.
 */
module RemoveG92 {

  import opened Common
  import opened GcodeBlocks

  /** (int)(v * 1024.0) / 1024.0: the value truncated toward zero to a
      multiple of 1/1024. */
  function Quantize(v: real): real
  {
    (Trunc(v * 1024.0) as real) / 1024.0
  }

  function QuantizeBlock(b: Block): (r: Block)
    ensures r.Keys == b.Keys
  {
    map k | k in b :: Quantize(b[k])
  }

  /** A value already on the 1/1024 grid (every integer is) is kept. */
  lemma QuantizeOnGrid(n: int)
    ensures Quantize(n as real / 1024.0) == n as real / 1024.0
  {
    assert (n as real / 1024.0) * 1024.0 == n as real;
    TruncOfInt(n);
  }

  /** Truncation moves a value toward zero by less than 1/1024. */
  lemma QuantizeBounds(v: real)
    ensures 0.0 <= v ==> 0.0 <= Quantize(v) <= v < Quantize(v) + 1.0 / 1024.0
    ensures v < 0.0 ==> v <= Quantize(v) <= 0.0 && Quantize(v) - 1.0 / 1024.0 < v
  {
  }

  /** (int)G == 92 */
  predicate IsG92(e: Block)
  {
    'G' in e && Trunc(e['G']) == 92
  }

  function Add(a: Distance, b: Distance): (r: Distance)
  {
    [a[0] + b[0], a[1] + b[1], a[2] + b[2], a[3] + b[3]]
  }

  function Sub(a: Distance, b: Distance): (r: Distance)
  {
    [a[0] - b[0], a[1] - b[1], a[2] - b[2], a[3] - b[3]]
  }

  function Zero(): Distance
  {
    [0.0, 0.0, 0.0, 0.0]
  }

  /** current_shift + new_pos - old_pos for a G92 block e. */
  function ShiftAfter(shift: Distance, state: Block, e: Block): Distance
  {
    Sub(Add(shift, BlockToDistance(Merge(state, e))), BlockToDistance(state))
  }

  /** The block with the shift subtracted from each of X, Y, Z and A that it
      has. */
  function Shifted(e: Block, shift: Distance): Block
  {
    var e1 := if 'X' in e then e['X' := e['X'] - shift[0]] else e;
    var e2 := if 'Y' in e1 then e1['Y' := e1['Y'] - shift[1]] else e1;
    var e3 := if 'Z' in e2 then e2['Z' := e2['Z'] - shift[2]] else e2;
    if 'A' in e3 then e3['A' := e3['A'] - shift[3]] else e3
  }

  /** The state with G and M erased. */
  function Cleared(b: Block): Block
  {
    b - {'G', 'M'}
  }

  /** erase('G') then erase('M'). */
  lemma EraseGM(b: Block)
    ensures (b - {'G'}) - {'M'} == Cleared(b)
  {
  }

  /** The result so far, the shift and the running state. */
  datatype Run = Run(out: Program, shift: Distance, state: Block)

  function Start(): Run
  {
    Run([], Zero(), map[])
  }

  /** One block, as written: the running state takes the shifted block. */
  function AsWrittenStep(acc: Run, raw: Block): Run
  {
    var e := QuantizeBlock(raw);
    if IsG92(e) then
      Run(acc.out, ShiftAfter(acc.shift, acc.state, e), Cleared(Merge(acc.state, e)))
    else
      var s := Shifted(e, acc.shift);
      Run(acc.out + [s], acc.shift, Cleared(Merge(acc.state, s)))
  }

  /** The pass as written, over the blocks of p: every G92 block is dropped
      and every other block kept; the shift never gets a fourth (A)
      component, as block_to_distance_t leaves it 0; and the running state
      holds neither G nor M. */
  function RunAsWritten(p: Program): (r: Run)
    ensures |r.out| == |p| - CountG92(p)
    ensures r.shift[3] == 0.0
    ensures 'G' !in r.state && 'M' !in r.state
  {
    if p == [] then Start() else AsWrittenStep(RunAsWritten(p[..|p| - 1]), p[|p| - 1])
  }

  function RemoveG92AsWritten(p: Program): Program
  {
    RunAsWritten(p).out
  }

  lemma RunAsWrittenStep(p: Program, i: nat)
    requires i < |p|
    ensures RunAsWritten(p[..i + 1]) == AsWrittenStep(RunAsWritten(p[..i]), p[i])
  {
    assert p[..i + 1][..i] == p[..i];
  }

  /** The loop that rounds every value of the block copy in place. */
  method QuantizeValues(e: Block) returns (q: Block)
    ensures q == QuantizeBlock(e)
  {
    q := e;
    var todo := e.Keys;
    while todo != {}
      invariant todo <= e.Keys && q.Keys == e.Keys
      invariant forall k :: k in q ==> q[k] == if k in todo then e[k] else Quantize(e[k])
      decreases todo
    {
      var k :| k in todo;
      var v := q[k];
      v := Trunc(v * 1024.0) as real;
      v := v / 1024.0;
      q := q[k := v];
      todo := todo - {k};
    }
  }

  /** The in-place subtraction of the shift from X, Y, Z and A. */
  method ShiftBlock(e0: Block, shift: Distance) returns (e: Block)
    ensures e == Shifted(e0, shift)
  {
    e := e0;
    if 'X' in e { e := e['X' := e['X'] - shift[0]]; }
    if 'Y' in e { e := e['Y' := e['Y'] - shift[1]]; }
    if 'Z' in e { e := e['Z' := e['Z'] - shift[2]]; }
    if 'A' in e { e := e['A' := e['A'] - shift[3]]; }
  }

  /** remove_g92_from_gcode, as the loop of the source. */
  method RemoveG92FromGcode(p: Program) returns (result: Program)
    ensures result == RemoveG92AsWritten(p)
  {
    result := [];
    var currentShift: Distance := [0.0, 0.0, 0.0, 0.0];
    var currentState: Block := map[];
    for i := 0 to |p|
      invariant Run(result, currentShift, currentState) == RunAsWritten(p[..i])
    {
      RunAsWrittenStep(p, i);
      var e := QuantizeValues(p[i]);
      if 'G' in e && Trunc(e['G']) == 92 {
        var merged := MergeBlocks(currentState, e);
        var newPos := BlockToDistance(merged);
        var oldPos := BlockToDistance(currentState);
        currentShift := Sub(Add(currentShift, newPos), oldPos);
        currentState := MergeBlocks(currentState, e);
      } else {
        e := ShiftBlock(e, currentShift);
        currentState := MergeBlocks(currentState, e);
        result := result + [e];
      }
      EraseGM(currentState);
      currentState := currentState - {'G'};
      currentState := currentState - {'M'};
    }
    assert p[..|p|] == p;
  }

  // ---------------------------------------------------------------------------
  // Properties

  /** The number of G92 blocks (after rounding). */
  function CountG92(p: Program): (n: nat)
    ensures n <= |p|
  {
    if p == [] then 0 else CountG92(p[..|p| - 1]) + (if IsG92(QuantizeBlock(p[|p| - 1])) then 1 else 0)
  }




  /** Agreement on X, Y and Z. */
  predicate SamePosition(a: Block, b: Block)
  {
    Get(a, 'X') == Get(b, 'X') && Get(a, 'Y') == Get(b, 'Y') && Get(a, 'Z') == Get(b, 'Z')
  }

  /** A G92 leaves the shift as it was exactly when it restates the current
      position. */
  lemma ShiftUnchangedIff(shift: Distance, state: Block, e: Block)
    ensures ShiftAfter(shift, state, e) == shift <==> SamePosition(Merge(state, e), state)
  {
    var d := ShiftAfter(shift, state, e);
    if d == shift {
      assert d[0] == shift[0] && d[1] == shift[1] && d[2] == shift[2];
    }
  }

  /** The subtraction touches X, Y, Z and A and nothing else. */
  lemma ShiftedMeaning(e: Block, shift: Distance)
    ensures Shifted(e, shift).Keys == e.Keys
    ensures forall k :: k in e ==> (Shifted(e, shift)[k] ==
      if k == 'X' then e[k] - shift[0] else if k == 'Y' then e[k] - shift[1]
      else if k == 'Z' then e[k] - shift[2] else if k == 'A' then e[k] - shift[3] else e[k])
  {
  }

  lemma ShiftedByZero(e: Block)
    ensures Shifted(e, Zero()) == e
  {
    ShiftedMeaning(e, Zero());
  }

  /** With no G92 in it, the program comes back rounded and otherwise
      unchanged. */
  lemma {:induction false} WithoutG92(p: Program)
    requires forall i :: 0 <= i < |p| ==> !IsG92(QuantizeBlock(p[i]))
    ensures RunAsWritten(p).shift == Zero()
    ensures |RemoveG92AsWritten(p)| == |p|
    ensures forall i :: 0 <= i < |p| ==> RemoveG92AsWritten(p)[i] == QuantizeBlock(p[i])
  {
    if p != [] {
      var q, e := p[..|p| - 1], p[|p| - 1];
      WithoutG92(q);
      ShiftedByZero(QuantizeBlock(e));
      assert forall i :: 0 <= i < |q| ==> RemoveG92AsWritten(p)[i] == RemoveG92AsWritten(q)[i];
    }
  }

  /** The values of a block are on the 1/1024 grid (integers are). */
  predicate OnGrid(b: Block)
  {
    forall k :: k in b ==> Quantize(b[k]) == b[k]
  }

  /** A program without G92 whose values are on the grid comes back exactly
      as it was. */
  lemma WithoutG92Unchanged(p: Program)
    requires forall i :: 0 <= i < |p| ==> OnGrid(p[i]) && !IsG92(QuantizeBlock(p[i]))
    ensures RemoveG92AsWritten(p) == p
  {
    WithoutG92(p);
    forall i | 0 <= i < |p|
      ensures RemoveG92AsWritten(p)[i] == p[i]
    {
      assert QuantizeBlock(p[i]) == p[i];
    }
  }

  // ---------------------------------------------------------------------------
  // The program coordinates the running state is meant to hold

  /** One block, corrected: the running state takes the block as the
      program gives it, so that a later G92 measures its shift from the
      program's own position. */
  function CorrectedStep(acc: Run, raw: Block): Run
  {
    var e := QuantizeBlock(raw);
    if IsG92(e) then
      Run(acc.out, ShiftAfter(acc.shift, acc.state, e), Cleared(Merge(acc.state, e)))
    else
      Run(acc.out + [Shifted(e, acc.shift)], acc.shift, Cleared(Merge(acc.state, e)))
  }

  /** The corrected pass drops and keeps the same blocks as the original,
      and keeps the same shape of shift and state. */
  function RunCorrected(p: Program): (r: Run)
    ensures |r.out| == |p| - CountG92(p)
    ensures r.shift[3] == 0.0
    ensures 'G' !in r.state && 'M' !in r.state
  {
    if p == [] then Start() else CorrectedStep(RunCorrected(p[..|p| - 1]), p[|p| - 1])
  }

  function RemoveG92Corrected(p: Program): Program
  {
    RunCorrected(p).out
  }

  /** The machine position the output leads to: its blocks merged in turn. */
  function Replay(out: Program): Block
  {
    if out == [] then map[] else Merge(Replay(out[..|out| - 1]), out[|out| - 1])
  }

  lemma ReplaySnoc(out: Program, b: Block)
    ensures Replay(out + [b]) == Merge(Replay(out), b)
  {
    assert (out + [b])[..|out|] == out;
  }

  /** Machine position equals program position minus shift, axis by axis. */
  predicate Tracks(machine: Block, r: Run)
  {
    Get(machine, 'X') == Get(r.state, 'X') - r.shift[0] &&
    Get(machine, 'Y') == Get(r.state, 'Y') - r.shift[1] &&
    Get(machine, 'Z') == Get(r.state, 'Z') - r.shift[2]
  }

  /** A G92 renames the position: the shift grows by exactly what the
      program position does. */
  lemma G92Tracks(machine: Block, acc: Run, e: Block)
    requires Tracks(machine, acc)
    ensures Tracks(machine, Run(acc.out, ShiftAfter(acc.shift, acc.state, e), Cleared(Merge(acc.state, e))))
  {
    var m := Merge(acc.state, e);
    assert Get(Cleared(m), 'X') == Get(m, 'X') && Get(Cleared(m), 'Y') == Get(m, 'Y') && Get(Cleared(m), 'Z') == Get(m, 'Z');
  }

  /** Any other block moves the machine to its shifted coordinates and the
      program to its own. */
  lemma MoveTracks(machine: Block, acc: Run, e: Block)
    requires Tracks(machine, acc)
    ensures Tracks(Merge(machine, Shifted(e, acc.shift)), Run(acc.out + [Shifted(e, acc.shift)], acc.shift, Cleared(Merge(acc.state, e))))
  {
    ShiftedMeaning(e, acc.shift);
    var m := Merge(acc.state, e);
    assert Get(Cleared(m), 'X') == Get(m, 'X') && Get(Cleared(m), 'Y') == Get(m, 'Y') && Get(Cleared(m), 'Z') == Get(m, 'Z');
  }

  /** After any prefix of the program, the corrected result leaves the
      machine at the program's position minus the accumulated shift: a G92
      renames the current position and never moves the machine. */
  lemma {:induction false} CorrectedTracksPosition(p: Program)
    ensures Tracks(Replay(RemoveG92Corrected(p)), RunCorrected(p))
  {
    if p != [] {
      var q, e := p[..|p| - 1], p[|p| - 1];
      CorrectedTracksPosition(q);
      var machine, acc, b := Replay(RemoveG92Corrected(q)), RunCorrected(q), QuantizeBlock(e);
      if IsG92(b) {
        G92Tracks(machine, acc, b);
      } else {
        MoveTracks(machine, acc, b);
        ReplaySnoc(acc.out, Shifted(b, acc.shift));
      }
    }
  }


  // ---------------------------------------------------------------------------
  // Programs worked through block by block

  /** X, Y and Z, with their place in a distance. */
  function AxisIndex(k: char): nat
  {
    if k == 'X' then 0 else if k == 'Y' then 1 else 2
  }

  predicate IsAxis(k: char)
  {
    k == 'X' || k == 'Y' || k == 'Z'
  }

  /** An integer value is on the grid. */
  lemma QuantizeInt(n: int)
    ensures Quantize(n as real) == n as real
  {
    assert (n as real) * 1024.0 == (n * 1024) as real;
    TruncOfInt(n * 1024);
  }

  lemma RunAsWrittenSnoc(p: Program, b: Block)
    ensures RunAsWritten(p + [b]) == AsWrittenStep(RunAsWritten(p), b)
  {
    assert (p + [b])[..|p|] == p;
  }

  lemma RunCorrectedSnoc(p: Program, b: Block)
    ensures RunCorrected(p + [b]) == CorrectedStep(RunCorrected(p), b)
  {
    assert (p + [b])[..|p|] == p;
  }

  /** A G92 block on the grid: nothing is written, the shift of an axis grows
      by how far the block renames it, and the state takes the block. */
  lemma G92Axis(acc: Run, b: Block, k: char)
    requires OnGrid(b) && IsG92(b) && IsAxis(k)
    ensures AsWrittenStep(acc, b).out == acc.out && CorrectedStep(acc, b).out == acc.out
    ensures AsWrittenStep(acc, b) == CorrectedStep(acc, b)
    ensures AsWrittenStep(acc, b).shift[AxisIndex(k)] == acc.shift[AxisIndex(k)] + Get(Merge(acc.state, b), k) - Get(acc.state, k)
    ensures Get(AsWrittenStep(acc, b).state, k) == Get(Merge(acc.state, b), k)
  {
    assert QuantizeBlock(b) == b;
  }

  /** Any other block on the grid: it is written shifted; as written the
      state takes the shifted value, corrected it takes the block's own. */
  lemma MoveAxis(acc: Run, b: Block, k: char)
    requires OnGrid(b) && !IsG92(b) && IsAxis(k)
    ensures AsWrittenStep(acc, b) == Run(acc.out + [Shifted(b, acc.shift)], acc.shift, AsWrittenStep(acc, b).state)
    ensures CorrectedStep(acc, b) == Run(acc.out + [Shifted(b, acc.shift)], acc.shift, CorrectedStep(acc, b).state)
    ensures k in b ==> Shifted(b, acc.shift)[k] == b[k] - acc.shift[AxisIndex(k)]
    ensures Get(AsWrittenStep(acc, b).state, k) == if k in b then b[k] - acc.shift[AxisIndex(k)] else Get(acc.state, k)
    ensures Get(CorrectedStep(acc, b).state, k) == Get(Merge(acc.state, b), k)
  {
    assert QuantizeBlock(b) == b;
    ShiftedMeaning(b, acc.shift);
  }

  /** G and X, both integers. */
  predicate GX(b: Block, g: int, x: int)
  {
    b.Keys == {'G', 'X'} && b['G'] == g as real && b['X'] == x as real
  }

  lemma GXOnGrid(b: Block, g: int, x: int)
    requires GX(b, g, x)
    ensures OnGrid(b)
  {
    QuantizeInt(g);
    QuantizeInt(x);
  }

  lemma GXIsG92(b: Block, g: int, x: int)
    requires GX(b, g, x)
    ensures IsG92(b) <==> g == 92
  {
    TruncOfInt(g);
  }

  /** A move on the grid, as written: written with the shift subtracted, and
      the state takes that shifted X. */
  lemma WrittenMoveX(acc: Run, b: Block, g: int, x: int)
    requires GX(b, g, x) && g != 92
    ensures var n := AsWrittenStep(acc, b);
      |n.out| == |acc.out| + 1 && (forall i :: 0 <= i < |acc.out| ==> n.out[i] == acc.out[i]) &&
      Get(n.out[|acc.out|], 'X') == x as real - acc.shift[0] &&
      n.shift[0] == acc.shift[0] && Get(n.state, 'X') == x as real - acc.shift[0]
  {
    GXOnGrid(b, g, x);
    GXIsG92(b, g, x);
    MoveAxis(acc, b, 'X');
  }

  /** A G92 on the grid, as written: nothing is written and the X shift grows
      by the new X minus the state's. */
  lemma WrittenG92X(acc: Run, b: Block, x: int)
    requires GX(b, 92, x)
    ensures var n := AsWrittenStep(acc, b);
      n.out == acc.out && n.shift[0] == acc.shift[0] + x as real - Get(acc.state, 'X') && Get(n.state, 'X') == x as real
  {
    GXOnGrid(b, 92, x);
    GXIsG92(b, 92, x);
    G92Axis(acc, b, 'X');
  }

  /** The same move, corrected: the state takes the program's X. */
  lemma CorrectedMoveX(acc: Run, b: Block, g: int, x: int)
    requires GX(b, g, x) && g != 92
    ensures var n := CorrectedStep(acc, b);
      |n.out| == |acc.out| + 1 && Get(n.out[|acc.out|], 'X') == x as real - acc.shift[0] &&
      n.shift[0] == acc.shift[0] && Get(n.state, 'X') == x as real
  {
    GXOnGrid(b, g, x);
    GXIsG92(b, g, x);
    MoveAxis(acc, b, 'X');
  }

  lemma CorrectedG92X(acc: Run, b: Block, x: int)
    requires GX(b, 92, x)
    ensures var n := CorrectedStep(acc, b);
      n.out == acc.out && n.shift[0] == acc.shift[0] + x as real - Get(acc.state, 'X') && Get(n.state, 'X') == x as real
  {
    GXOnGrid(b, 92, x);
    GXIsG92(b, 92, x);
    G92Axis(acc, b, 'X');
  }

  /** Three blocks, as written, one step at a time. */
  lemma WrittenThree(a: Block, b: Block, c: Block)
    ensures RunAsWritten([a, b, c]) == AsWrittenStep(AsWrittenStep(AsWrittenStep(Start(), a), b), c)
  {
    var p1, p2 := [a], [a, b];
    assert [] + [a] == p1 && p1 + [b] == p2 && p2 + [c] == [a, b, c];
    RunAsWrittenSnoc([], a);
    RunAsWrittenSnoc(p1, b);
    RunAsWrittenSnoc(p2, c);
  }

  /** Five blocks, as written, one step at a time. */
  lemma WrittenFive(a: Block, b: Block, c: Block, d: Block, e: Block)
    ensures RunAsWritten([a, b, c, d, e])
      == AsWrittenStep(AsWrittenStep(AsWrittenStep(AsWrittenStep(AsWrittenStep(Start(), a), b), c), d), e)
  {
    var p3, p4 := [a, b, c], [a, b, c, d];
    assert p3 + [d] == p4 && p4 + [e] == [a, b, c, d, e];
    WrittenThree(a, b, c);
    RunAsWrittenSnoc(p3, d);
    RunAsWrittenSnoc(p4, e);
  }

  /** Five blocks, corrected, one step at a time. */
  lemma CorrectedFive(a: Block, b: Block, c: Block, d: Block, e: Block)
    ensures RunCorrected([a, b, c, d, e])
      == CorrectedStep(CorrectedStep(CorrectedStep(CorrectedStep(CorrectedStep(Start(), a), b), c), d), e)
  {
    var p1, p2, p3, p4 := [a], [a, b], [a, b, c], [a, b, c, d];
    assert [] + [a] == p1 && p1 + [b] == p2 && p2 + [c] == p3 && p3 + [d] == p4 && p4 + [e] == [a, b, c, d, e];
    RunCorrectedSnoc([], a);
    RunCorrectedSnoc(p1, b);
    RunCorrectedSnoc(p2, c);
    RunCorrectedSnoc(p3, d);
    RunCorrectedSnoc(p4, e);
  }

  /** G0X10, G92X10, G0X0 goes back to 0: the G92 restates the position. */
  lemma G92RestatingGoesBack(a: Block, b: Block, c: Block)
    requires GX(a, 0, 10) && GX(b, 92, 10) && GX(c, 0, 0)
    ensures var out := RemoveG92AsWritten([a, b, c]);
      |out| == 2 && Get(out[0], 'X') == 10.0 && Get(out[1], 'X') == 0.0
  {
    var r1 := AsWrittenStep(Start(), a);
    var r2 := AsWrittenStep(r1, b);
    WrittenMoveX(Start(), a, 0, 10);
    WrittenG92X(r1, b, 10);
    WrittenMoveX(r2, c, 0, 0);
    WrittenThree(a, b, c);
  }

  /** The first G92 of a program is handled right; the second one counts
      the first one's shift again, because the state then holds a shifted
      (machine) position.  G0X10, G92X0, G0X5, G92X0, G0X1 ends at machine
      X26 where the program means X16 (the corrected pass). */
  lemma G92ShiftCountedTwice(a: Block, b: Block, c: Block, d: Block, e: Block)
    requires GX(a, 0, 10) && GX(b, 92, 0) && GX(c, 0, 5) && GX(d, 92, 0) && GX(e, 0, 1)
    ensures var out := RemoveG92AsWritten([a, b, c, d, e]);
      |out| == 3 && Get(out[2], 'X') == 26.0
    ensures var out := RemoveG92Corrected([a, b, c, d, e]);
      |out| == 3 && Get(out[2], 'X') == 16.0
  {
    WrittenEndsAt26(a, b, c, d, e);
    CorrectedEndsAt16(a, b, c, d, e);
  }

  /** As written, the last move of G0X10, G92X0, G0X5, G92X0, G0X1 is X26. */
  lemma WrittenEndsAt26(a: Block, b: Block, c: Block, d: Block, e: Block)
    requires GX(a, 0, 10) && GX(b, 92, 0) && GX(c, 0, 5) && GX(d, 92, 0) && GX(e, 0, 1)
    ensures var out := RemoveG92AsWritten([a, b, c, d, e]);
      |out| == 3 && Get(out[2], 'X') == 26.0
  {
    WrittenSteps26(a, b, c, d, e);
    WrittenFive(a, b, c, d, e);
  }

  /** The same five steps, one Run at a time. */
  lemma WrittenSteps26(a: Block, b: Block, c: Block, d: Block, e: Block)
    requires GX(a, 0, 10) && GX(b, 92, 0) && GX(c, 0, 5) && GX(d, 92, 0) && GX(e, 0, 1)
    ensures var out := AsWrittenStep(AsWrittenStep(AsWrittenStep(AsWrittenStep(AsWrittenStep(Start(), a), b), c), d), e).out;
      |out| == 3 && Get(out[2], 'X') == 26.0
  {
    var r1 := AsWrittenStep(Start(), a);
    WrittenMoveX(Start(), a, 0, 10);
    assert r1.shift[0] == 0.0 && Get(r1.state, 'X') == 10.0;
    var r2 := AsWrittenStep(r1, b);
    WrittenG92X(r1, b, 0);
    assert |r2.out| == 1 && r2.shift[0] == -10.0;
    var r3 := AsWrittenStep(r2, c);
    WrittenMoveX(r2, c, 0, 5);
    assert |r3.out| == 2 && Get(r3.state, 'X') == 15.0;
    var r4 := AsWrittenStep(r3, d);
    WrittenG92X(r3, d, 0);
    assert |r4.out| == 2 && r4.shift[0] == -25.0;
    WrittenMoveX(r4, e, 0, 1);
  }

  /** Corrected, the last move of the same program is X16. */
  lemma CorrectedEndsAt16(a: Block, b: Block, c: Block, d: Block, e: Block)
    requires GX(a, 0, 10) && GX(b, 92, 0) && GX(c, 0, 5) && GX(d, 92, 0) && GX(e, 0, 1)
    ensures var out := RemoveG92Corrected([a, b, c, d, e]);
      |out| == 3 && Get(out[2], 'X') == 16.0
  {
    var r1 := CorrectedStep(Start(), a);
    var r2 := CorrectedStep(r1, b);
    var r3 := CorrectedStep(r2, c);
    var r4 := CorrectedStep(r3, d);
    CorrectedMoveX(Start(), a, 0, 10);
    CorrectedG92X(r1, b, 0);
    CorrectedMoveX(r2, c, 0, 5);
    CorrectedG92X(r3, d, 0);
    CorrectedMoveX(r4, e, 0, 1);
    CorrectedFive(a, b, c, d, e);
  }
}
