/**
 * G-code blocks: a block maps an upper-case letter to its number
 * (N001G0X10Y20 becomes {G: 0, X: 10, Y: 20}).  Merging, differencing, the
 * XYZ position of a block and the machine state after a program.
 */
module GcodeBlocks {

  import opened Common

  type Block = map<char, real>

  type Program = seq<Block>

  /** A position in floating point millimetres: X, Y, Z and a fourth axis. */
  type Distance = s: seq<real> | |s| == 4 witness [0.0, 0.0, 0.0, 0.0]

  /** block['k'] on a copy: the value, or 0 when the key is missing. */
  function Get(b: Block, k: char): real
  {
    if k in b then b[k] else 0.0
  }

  // ---------------------------------------------------------------------------
  // merge_blocks

  /** The source block overrides the destination block key by key. */
  function Merge(d: Block, s: Block): (r: Block)
  {
    map k | k in d.Keys + s.Keys :: if k in s then s[k] else d[k]
  }

  /** merge_blocks: a copy of the destination with every entry of the source
      written over it. */
  method MergeBlocks(d: Block, s: Block) returns (merged: Block)
    ensures merged == Merge(d, s)
    ensures merged.Keys == d.Keys + s.Keys
    ensures forall k :: k in s ==> merged[k] == s[k]
    ensures forall k :: k in d && k !in s ==> merged[k] == d[k]
  {
    merged := d;
    var todo := s.Keys;
    while todo != {}
      invariant todo <= s.Keys
      invariant merged.Keys == d.Keys + (s.Keys - todo)
      invariant forall k :: k in s.Keys - todo ==> merged[k] == s[k]
      invariant forall k :: k in merged && k !in s.Keys - todo ==> merged[k] == d[k]
      decreases todo
    {
      var k :| k in todo;
      merged := merged[k := s[k]];
      todo := todo - {k};
    }
  }

  lemma MergeEmpty()
    ensures Merge(map[], map[]) == map[]
  {
  }

  /** Merging with an empty block changes nothing, from either side. */
  lemma MergeNeutral(b: Block)
    ensures Merge(b, map[]) == b && Merge(map[], b) == b
  {
  }

  /** Merging the same block twice is merging it once. */
  lemma MergeIdempotent(d: Block, s: Block)
    ensures Merge(Merge(d, s), s) == Merge(d, s)
  {
  }

  lemma MergeAssociative(a: Block, b: Block, c: Block)
    ensures Merge(Merge(a, b), c) == Merge(a, Merge(b, c))
  {
  }

  // ---------------------------------------------------------------------------
  // diff_blocks

  /** The keys diff_blocks keeps: the destination's keys whose value the
      source does not repeat, and, through operator[], the source's keys the
      destination lacks whose source value is not 0. */
  ghost predicate InDiff(d: Block, s: Block, k: char)
  {
    if k in s then Get(d, k) != s[k] else k in d
  }

  /** diff_blocks as written: a key of the source missing from the
      destination is inserted with 0, and only erased when the source value
      is 0 too. */
  function Diff(d: Block, s: Block): (r: Block)
  {
    map k | k in d.Keys + s.Keys && (if k in s then Get(d, k) != s[k] else k in d) :: Get(d, k)
  }

  lemma DiffMeaning(d: Block, s: Block, k: char)
    ensures k in Diff(d, s) <==> InDiff(d, s, k)
    ensures k in Diff(d, s) ==> Diff(d, s)[k] == Get(d, k)
  {
  }

  /** diff_blocks: the destination without the entries the source repeats. */
  method DiffBlocks(d: Block, s: Block) returns (merged: Block)
    ensures merged == Diff(d, s)
  {
    merged := d;
    var todo := s.Keys;
    while todo != {}
      invariant todo <= s.Keys
      invariant forall k :: k in merged <==> (if k in s.Keys - todo then InDiff(d, s, k) else k in d)
      invariant forall k :: k in merged ==> merged[k] == Get(d, k)
      decreases todo
    {
      var k :| k in todo;
      var cur := if k in merged then merged[k] else 0.0;
      if cur == s[k] {
        merged := merged - {k};
      } else if k !in merged {
        merged := merged[k := 0.0];
      }
      todo := todo - {k};
    }
    assert forall k :: k in merged <==> k in Diff(d, s);
  }

  /** When every key of the source is also in the destination, the
      difference is exactly the destination's changed or new entries. */
  lemma DiffOfSuperset(d: Block, s: Block)
    requires s.Keys <= d.Keys
    ensures Diff(d, s) == map k | k in d && (k !in s || d[k] != s[k]) :: d[k]
  {
  }

  /** Merging the difference back onto the source recovers the destination,
      when the destination extends the source. */
  lemma MergeDiffRestores(d: Block, s: Block)
    requires s.Keys <= d.Keys
    ensures Merge(s, Diff(d, s)) == d
  {
  }

  /** The 0 inserted by operator[]: {X: 1} against {Y: 2} gains Y = 0. */
  lemma DiffInsertsZero()
    ensures Diff(map['X' := 1.0], map['Y' := 2.0]) == map['X' := 1.0, 'Y' := 0.0]
  {
    var d, s := map['X' := 1.0], map['Y' := 2.0];
    assert InDiff(d, s, 'Y');
    assert forall k :: k in Diff(d, s) <==> k == 'X' || k == 'Y';
  }

  // ---------------------------------------------------------------------------
  // block_to_distance_t and blocks_to_vector_move

  /** block_to_distance_t: X, Y and Z (missing ones 0), fourth axis 0. */
  function BlockToDistance(b: Block): (r: Distance)
  {
    [Get(b, 'X'), Get(b, 'Y'), Get(b, 'Z'), 0.0]
  }

  /** blocks_to_vector_move: the movement from block a to block b. */
  function VectorMove(a: Block, b: Block): (r: Distance)
  {
    var p, q := BlockToDistance(a), BlockToDistance(b);
    [q[0] - p[0], q[1] - p[1], q[2] - p[2], q[3] - p[3]]
  }

  /** The move is zero exactly when X, Y and Z agree (A and F are not part
      of the position). */
  lemma VectorMoveZero(a: Block, b: Block)
    ensures VectorMove(a, b) == [0.0, 0.0, 0.0, 0.0] <==>
      Get(a, 'X') == Get(b, 'X') && Get(a, 'Y') == Get(b, 'Y') && Get(a, 'Z') == Get(b, 'Z')
  {
  }

  /** The position of a merge takes each axis from the source when present. */
  lemma BlockToDistanceMerge(d: Block, s: Block)
    ensures BlockToDistance(Merge(d, s)) ==
      [if 'X' in s then s['X'] else Get(d, 'X'), if 'Y' in s then s['Y'] else Get(d, 'Y'),
       if 'Z' in s then s['Z'] else Get(d, 'Z'), 0.0]
  {
  }

  // ---------------------------------------------------------------------------
  // last_state_after_program_execution

  /** (int)G == 4: a dwell, which does not change the machine state. */
  predicate IsDwell(e: Block)
  {
    'G' in e && Trunc(e['G']) == 4
  }

  /** The initial state with X, Y and Z inserted as 0 when missing. */
  function WithXYZ(b: Block): (r: Block)
  {
    Merge(map['X' := 0.0, 'Y' := 0.0, 'Z' := 0.0], b)
  }

  /** The state after the program: before each block the M key is erased,
      a dwell block is emptied, and the block is merged in. */
  function LastState(p: Program, init: Block): (r: Block)
  {
    if p == [] then WithXYZ(init)
    else
      var e := p[|p| - 1];
      Merge(LastState(p[..|p| - 1], init) - {'M'}, if IsDwell(e) then map[] else e)
  }

  /** last_state_after_program_execution, as the loop of the source. */
  method LastStateAfterProgramExecution(p: Program, init: Block) returns (result: Block)
    ensures result == LastState(p, init)
  {
    result := MergeBlocks(map['X' := 0.0, 'Y' := 0.0, 'Z' := 0.0], init);
    for i := 0 to |p|
      invariant result == LastState(p[..i], init)
    {
      LastStateStep(p, i, init);
      result := result - {'M'};
      var e := p[i];
      if 'G' in e {
        if Trunc(e['G']) == 4 {
          e := map[];
        }
      }
      result := MergeBlocks(result, e);
    }
    assert p[..|p|] == p;
  }

  lemma LastStateStep(p: Program, i: nat, init: Block)
    requires i < |p|
    ensures LastState(p[..i + 1], init) ==
      Merge(LastState(p[..i], init) - {'M'}, if IsDwell(p[i]) then map[] else p[i])
  {
    assert p[..i + 1][..i] == p[..i];
  }

  /** X, Y and Z are always part of the state. */
  lemma {:induction false} LastStateHasXYZ(p: Program, init: Block)
    ensures 'X' in LastState(p, init) && 'Y' in LastState(p, init) && 'Z' in LastState(p, init)
  {
    if p != [] {
      LastStateHasXYZ(p[..|p| - 1], init);
    }
  }

  /** A state that already has X, Y and Z is its own starting state. */
  lemma WithXYZKeeps(b: Block)
    requires 'X' in b && 'Y' in b && 'Z' in b
    ensures WithXYZ(b) == b
  {
  }

  /** Running p then q is running q from the state p leaves. */
  lemma {:induction false} LastStateConcat(p: Program, q: Program, init: Block)
    ensures LastState(p + q, init) == LastState(q, LastState(p, init))
    decreases |q|
  {
    if q == [] {
      assert p + q == p;
      LastStateHasXYZ(p, init);
      WithXYZKeeps(LastState(p, init));
    } else {
      assert (p + q)[..|p + q| - 1] == p + q[..|q| - 1];
      LastStateConcat(p, q[..|q| - 1], init);
    }
  }

  /** A dwell block only drops the M key. */
  lemma DwellOnlyDropsM(p: Program, e: Block, init: Block)
    requires IsDwell(e)
    ensures LastState(p + [e], init) == LastState(p, init) - {'M'}
  {
    assert (p + [e])[..|p|] == p;
  }

  /** M survives only from the last block, and only if that block is not a
      dwell. */
  lemma LastStateM(p: Program, init: Block)
    ensures p != [] ==> ('M' in LastState(p, init) <==> !IsDwell(p[|p| - 1]) && 'M' in p[|p| - 1])
    ensures p == [] ==> ('M' in LastState(p, init) <==> 'M' in init)
  {
  }

  /** Any other key holds the value of the last non-dwell block that has it. */
  lemma LastStateValue(p: Program, init: Block, k: char, i: nat)
    requires k != 'M' && i < |p| && !IsDwell(p[i]) && k in p[i]
    requires forall j :: i < j < |p| ==> IsDwell(p[j]) || k !in p[j]
    ensures k in LastState(p, init) && LastState(p, init)[k] == p[i][k]
  {
    var pre, post := p[..i + 1], p[i + 1..];
    assert p == pre + post;
    LastStateConcat(pre, post, init);
    assert pre[..i] == p[..i];
    LastStateHasXYZ(pre, init);
    assert forall j :: 0 <= j < |post| ==> post[j] == p[i + 1 + j];
    KeyUntouched(post, LastState(pre, init), k);
  }

  /** Blocks without the key (or dwells) leave it as it was. */
  lemma {:induction false} KeyUntouched(q: Program, s: Block, k: char)
    requires k != 'M' && k in s && 'X' in s && 'Y' in s && 'Z' in s
    requires forall j :: 0 <= j < |q| ==> IsDwell(q[j]) || k !in q[j]
    ensures k in LastState(q, s) && LastState(q, s)[k] == s[k]
    decreases |q|
  {
    if q == [] {
      WithXYZKeeps(s);
    } else {
      KeyUntouched(q[..|q| - 1], s, k);
    }
  }
}
