/**
 * Whole programs of blocks: dropping moves that go nowhere, and cutting a
 * program into groups of blocks that belong to one G or M command.
 */
module GcodePrograms {

  import opened Common
  import opened GcodeBlocks

  // ---------------------------------------------------------------------------
  // remove_duplicate_blocks

  /** The state remove_duplicate_blocks starts from, before the initial
      state is merged over it. */
  function DedupBase(): Block
  {
    map['X' := 0.0, 'Y' := 0.0, 'Z' := 0.0, 'A' := 0.0, 'F' := 0.1]
  }

  /** A block the function examines: no M, and G equal to 0, 1 or 92. */
  predicate IsMotion(s: Block)
  {
    'M' !in s && 'G' in s && (s['G'] == 0.0 || s['G'] == 1.0 || s['G'] == 92.0)
  }

  /** The new state moves (the XYZ vector between the states is not zero)
      or changes the feedrate. */
  predicate Moves(newState: Block, current: Block)
  {
    !(VectorMove(newState, current) == [0.0, 0.0, 0.0, 0.0] && Get(newState, 'F') == Get(current, 'F'))
  }

  /** The block written for a move: what changed, with the G of the new
      state. */
  function Emit(newState: Block, current: Block): Block
    requires 'G' in newState
  {
    Diff(newState, current)['G' := newState['G']]
  }

  /** The result so far and the current state after the blocks of p: the
      output is never longer than the input, and the state never loses a key
      of the starting state. */
  function Dedup(p: Program, init: Block): (r: (Program, Block))
    ensures |r.0| <= |p|
    ensures Merge(DedupBase(), init).Keys <= r.1.Keys
  {
    if p == [] then ([], Merge(DedupBase(), init))
    else
      var (out, cur) := Dedup(p[..|p| - 1], init);
      var s := p[|p| - 1];
      if IsMotion(s) then
        var newState := Merge(cur, s);
        if Moves(newState, cur) then (out + [Emit(newState, cur)], newState) else (out, newState)
      else (out + [s], cur)
  }

  function RemoveDuplicates(p: Program, init: Block): Program
  {
    Dedup(p, init).0
  }

  lemma DedupStep(p: Program, i: nat, init: Block)
    requires i < |p|
    ensures Dedup(p[..i + 1], init) ==
      var (out, cur) := Dedup(p[..i], init);
      var s := p[i];
      if IsMotion(s) then
        var newState := Merge(cur, s);
        if Moves(newState, cur) then (out + [Emit(newState, cur)], newState) else (out, newState)
      else (out + [s], cur)
  {
    assert p[..i + 1][..i] == p[..i];
  }

  /** remove_duplicate_blocks: motion blocks that neither move nor change
      the feedrate are dropped, the others are reduced to what changed;
      every other block is copied. */
  method RemoveDuplicateBlocks(p: Program, init: Block) returns (ret: Program)
    ensures ret == RemoveDuplicates(p, init)
  {
    ret := [];
    var current := MergeBlocks(DedupBase(), init);
    for i := 0 to |p|
      invariant (ret, current) == Dedup(p[..i], init)
    {
      DedupStep(p, i, init);
      var s := p[i];
      if 'M' !in s {
        if 'G' in s && (s['G'] == 0.0 || s['G'] == 1.0 || s['G'] == 92.0) {
          var newState := MergeBlocks(current, s);
          if Moves(newState, current) {
            var nblock := DiffBlocks(newState, current);
            nblock := nblock['G' := newState['G']];
            ret := ret + [nblock];
          }
          current := newState;
          continue;
        }
      }
      ret := ret + [s];
    }
    assert p[..|p|] == p;
  }

  /** The blocks that are not motions, in order. */
  function Others(p: Program): Program
  {
    if p == [] then []
    else Others(p[..|p| - 1]) + (if IsMotion(p[|p| - 1]) then [] else [p[|p| - 1]])
  }

  lemma OthersSnoc(p: Program, b: Block)
    ensures Others(p + [b]) == Others(p) + (if IsMotion(b) then [] else [b])
  {
    assert (p + [b])[..|p|] == p;
  }

  /** A written move is itself a motion block. */
  lemma EmitIsMotion(cur: Block, s: Block)
    requires IsMotion(s)
    ensures IsMotion(Emit(Merge(cur, s), cur))
  {
    var n := Merge(cur, s);
    assert 'M' in n ==> 'M' in cur && n['M'] == cur['M'];
    DiffMeaning(n, cur, 'M');
  }

  /** Every block that is not a motion comes through unchanged and in
      order. */
  lemma {:induction false} DedupKeepsOthers(p: Program, init: Block)
    ensures Others(RemoveDuplicates(p, init)) == Others(p)
  {
    if p != [] {
      var init0, s := p[..|p| - 1], p[|p| - 1];
      DedupKeepsOthers(init0, init);
      var (out, cur) := Dedup(init0, init);
      if IsMotion(s) {
        var n := Merge(cur, s);
        if Moves(n, cur) {
          EmitIsMotion(cur, s);
          OthersSnoc(out, Emit(n, cur));
        }
      } else {
        OthersSnoc(out, s);
      }
    }
  }

  /** The state reached by merging the motion blocks, one after another,
      onto the starting state. */
  function MotionState(p: Program, init: Block): Block
  {
    if p == [] then Merge(DedupBase(), init)
    else
      var st := MotionState(p[..|p| - 1], init);
      if IsMotion(p[|p| - 1]) then Merge(st, p[|p| - 1]) else st
  }

  lemma MotionStateSnoc(p: Program, b: Block, init: Block)
    ensures MotionState(p + [b], init) == if IsMotion(b) then Merge(MotionState(p, init), b) else MotionState(p, init)
  {
    assert (p + [b])[..|p|] == p;
  }

  /** The current state is the state of all motion blocks. */
  lemma {:induction false} DedupState(p: Program, init: Block)
    ensures Dedup(p, init).1 == MotionState(p, init)
  {
    if p != [] {
      DedupState(p[..|p| - 1], init);
    }
  }

  /** X, Y, Z and F: the coordinates and the feedrate. */
  predicate IsTracked(k: char)
  {
    k == 'X' || k == 'Y' || k == 'Z' || k == 'F'
  }

  predicate HasTracked(b: Block)
  {
    'X' in b && 'Y' in b && 'Z' in b && 'F' in b
  }

  predicate AgreeTracked(a: Block, b: Block)
  {
    Get(a, 'X') == Get(b, 'X') && Get(a, 'Y') == Get(b, 'Y') && Get(a, 'Z') == Get(b, 'Z') && Get(a, 'F') == Get(b, 'F')
  }

  /** A dropped block leaves X, Y, Z and F as they were. */
  lemma DroppedKeeps(cur: Block, s: Block)
    requires !Moves(Merge(cur, s), cur)
    ensures AgreeTracked(Merge(cur, s), cur)
  {
    var n := Merge(cur, s);
    assert VectorMove(n, cur) == [0.0, 0.0, 0.0, 0.0];
    VectorMoveZero(n, cur);
  }

  /** Replaying a written move reaches the new state in X, Y, Z and F,
      whatever the replay state agreed with before. */
  lemma EmitReplays(r: Block, cur: Block, s: Block)
    requires IsMotion(s) && HasTracked(cur) && AgreeTracked(r, cur)
    ensures AgreeTracked(Merge(r, Emit(Merge(cur, s), cur)), Merge(cur, s))
  {
    var n := Merge(cur, s);
    var e := Emit(n, cur);
    forall k | IsTracked(k)
      ensures Get(Merge(r, e), k) == Get(n, k)
    {
      DiffMeaning(n, cur, k);
    }
  }

  /** Merging a block keeps the coordinates and the feedrate present. */
  lemma MergeHasTracked(a: Block, b: Block)
    requires HasTracked(a)
    ensures HasTracked(Merge(a, b))
  {
  }

  /** Replaying the output from the same initial state ends at the same
      X, Y, Z and feedrate as replaying the input: the dropped blocks were
      indeed duplicates. */
  lemma {:induction false} DedupReplays(p: Program, init: Block)
    ensures HasTracked(MotionState(p, init))
    ensures AgreeTracked(MotionState(RemoveDuplicates(p, init), init), MotionState(p, init))
  {
    DedupState(p, init);
    if p != [] {
      var init0, s := p[..|p| - 1], p[|p| - 1];
      DedupReplays(init0, init);
      DedupState(init0, init);
      var (out, cur) := Dedup(init0, init);
      if IsMotion(s) {
        var n := Merge(cur, s);
        MergeHasTracked(cur, s);
        if Moves(n, cur) {
          EmitIsMotion(cur, s);
          MotionStateSnoc(out, Emit(n, cur), init);
          EmitReplays(MotionState(out, init), cur, s);
        } else {
          DroppedKeeps(cur, s);
        }
      } else {
        MotionStateSnoc(out, s, init);
      }
    }
  }

  // ---------------------------------------------------------------------------
  // group_gcode_commands

  /** A group of consecutive blocks that belong to one command. */
  type Group = g: seq<Block> | |g| > 0 witness [map[]]

  /** The two invalid_argument errors, and std::out_of_range from `at`. */
  datatype GroupError = FirstNotGOrM | UnclearGOrM | OutOfRange

  /** The state group_gcode_commands starts from, before the initial state
      is merged over it. */
  function GroupBase(): Block
  {
    map['X' := 0.0, 'Y' := 0.0, 'Z' := 0.0, 'A' := 0.0]
  }

  /** The state after merging every block of p. */
  function GroupState(p: Program, init: Block): Block
  {
    if p == [] then Merge(GroupBase(), init) else Merge(GroupState(p[..|p| - 1], init), p[|p| - 1])
  }

  /** Where block e goes: the first block must have G or M; a G block joins
      the last group when that group ends in a G block and its front has the
      same G, otherwise it opens a group; an M block opens a group; any other
      block joins a group whose front has G and is an error otherwise. */
  function Place(gs: seq<Group>, e: Block): (r: Result<seq<Group>, GroupError>)
    ensures r.Ok? ==> |r.value| > 0
    ensures r.Ok? ==> |gs| <= |r.value| <= |gs| + 1
  {
    var single: Group := [e];
    if gs == [] then
      if 'G' in e || 'M' in e then Ok([single]) else Err(FirstNotGOrM)
    else
      var g := gs[|gs| - 1];
      var joined: Group := g + [e];
      if 'G' in e then
        if 'G' in g[|g| - 1] then
          if 'G' !in g[0] then Err(OutOfRange)
          else if g[0]['G'] == e['G'] then Ok(gs[..|gs| - 1] + [joined])
          else Ok(gs + [single])
        else Ok(gs + [single])
      else if 'M' in e then Ok(gs + [single])
      else if 'G' in g[0] then Ok(gs[..|gs| - 1] + [joined])
      else Err(UnclearGOrM)
  }

  /** A group of one G1 block without a feedrate. */
  predicate NeedsFeedrate(g: Group)
  {
    |g| == 1 && 'G' in g[0] && Trunc(g[0]['G']) == 1 && 'F' !in g[0]
  }

  /** The block put in front of such a group: G1 at the current feedrate. */
  function FeedHead(f: real): Block
  {
    map['G' := 1.0, 'F' := f]
  }

  /** A last group that needs a feedrate becomes the feedrate head followed
      by e; the feedrate is read with `at`, which throws when the state has
      none. */
  function Patch(gs: seq<Group>, e: Block, cur: Block): (r: Result<seq<Group>, GroupError>)
    requires |gs| > 0
    ensures r.Ok? ==> |r.value| == |gs|
  {
    if NeedsFeedrate(gs[|gs| - 1]) then
      if 'F' in cur then
        var head: Group := [FeedHead(cur['F']), e];
        Ok(gs[..|gs| - 1] + [head])
      else Err(OutOfRange)
    else Ok(gs)
  }

  /** The groups of p, or the first error: a non-empty program that groups
      has at least one group and never more groups than blocks, and only a
      non-empty program can fail. */
  function Grouped(p: Program, init: Block): (r: Result<seq<Group>, GroupError>)
    ensures p != [] && r.Ok? ==> |r.value| > 0
    ensures r.Ok? ==> |r.value| <= |p|
    ensures r.Err? ==> p != []
  {
    if p == [] then Ok([])
    else
      var prev := Grouped(p[..|p| - 1], init);
      if prev.Err? then Err(prev.error)
      else
        var placed := Place(prev.value, p[|p| - 1]);
        if placed.Err? then Err(placed.error)
        else Patch(placed.value, p[|p| - 1], GroupState(p, init))
  }

  lemma GroupedStep(p: Program, i: nat, init: Block)
    requires i < |p|
    ensures Grouped(p[..i + 1], init) ==
      var prev := Grouped(p[..i], init);
      if prev.Err? then Err(prev.error)
      else
        var placed := Place(prev.value, p[i]);
        if placed.Err? then Err(placed.error)
        else Patch(placed.value, p[i], GroupState(p[..i + 1], init))
    ensures GroupState(p[..i + 1], init) == Merge(GroupState(p[..i], init), p[i])
  {
    assert p[..i + 1][..i] == p[..i];
  }

  /** Once an error is thrown, the rest of the program does not matter. */
  lemma {:induction false} GroupErrorStays(p: Program, n: nat, init: Block)
    requires n <= |p| && Grouped(p[..n], init).Err?
    ensures Grouped(p, init) == Grouped(p[..n], init)
    decreases |p| - n
  {
    if n < |p| {
      GroupedStep(p, n, init);
      GroupErrorStays(p, n + 1, init);
    } else {
      assert p[..n] == p;
    }
  }

  /** The first half of the loop body: the block is put into a group. */
  method PlaceBlock(generated: seq<Group>, e: Block) returns (r: Result<seq<Group>, GroupError>)
    ensures r == Place(generated, e)
  {
    var single: Group := [e];
    if |generated| == 0 {
      if 'G' in e || 'M' in e {
        return Ok([single]);
      }
      return Err(FirstNotGOrM);
    }
    var g := generated[|generated| - 1];
    var joined: Group := g + [e];
    if 'G' in e {
      if 'G' in g[|g| - 1] {
        if 'G' !in g[0] {
          return Err(OutOfRange);
        }
        if g[0]['G'] == e['G'] {
          r := Ok(generated[..|generated| - 1] + [joined]);
        } else {
          r := Ok(generated + [single]);
        }
      } else {
        r := Ok(generated + [single]);
      }
    } else if 'M' in e {
      r := Ok(generated + [single]);
    } else if 'G' in g[0] {
      r := Ok(generated[..|generated| - 1] + [joined]);
    } else {
      r := Err(UnclearGOrM);
    }
  }

  /** The end of one round of the grouping loop: a last group of a lone G1
      block without F gets the feedrate head in front. */
  method PatchFeedrate(generated: seq<Group>, e: Block, current: Block) returns (r: Result<seq<Group>, GroupError>)
    requires |generated| > 0
    ensures r == Patch(generated, e, current)
  {
    r := Ok(generated);
    var last := generated[|generated| - 1];
    if |last| == 1 && 'G' in last[0] {
      if Trunc(last[0]['G']) == 1 && 'F' !in last[0] {
        if 'F' !in current {
          return Err(OutOfRange);
        }
        var head: Group := [map['G' := 1.0, 'F' := current['F']], e];
        r := Ok(generated[..|generated| - 1] + [head]);
      }
    }
  }

  /** group_gcode_commands, as the loop of the source: place the block,
      merge it into the current state, and give a lone G1 block without a
      feedrate a feedrate head. */
  method GroupGcodeCommands(p: Program, init: Block) returns (r: Result<seq<Group>, GroupError>)
    ensures r == Grouped(p, init)
  {
    var generated: seq<Group> := [];
    var current := MergeBlocks(GroupBase(), init);
    for i := 0 to |p|
      invariant Grouped(p[..i], init) == Ok(generated)
      invariant current == GroupState(p[..i], init)
    {
      GroupedStep(p, i, init);
      var e := p[i];
      var placed := PlaceBlock(generated, e);
      if placed.Err? {
        GroupErrorStays(p, i + 1, init);
        return Err(placed.error);
      }
      current := MergeBlocks(current, e);
      var patched := PatchFeedrate(placed.value, e, current);
      if patched.Err? {
        GroupErrorStays(p, i + 1, init);
        return Err(patched.error);
      }
      generated := patched.value;
    }
    assert p[..|p|] == p;
    r := Ok(generated);
  }

  /** An empty program gives no groups. */
  lemma GroupedEmpty(init: Block)
    ensures Grouped([], init) == Ok([])
  {
  }

  /** A block joins the last group or opens a new one; nothing else moves. */
  lemma PlaceShape(gs: seq<Group>, e: Block)
    requires Place(gs, e).Ok?
    ensures var r := Place(gs, e).value;
      r == gs + [[e]] || (gs != [] && r == gs[..|gs| - 1] + [gs[|gs| - 1] + [e]])
  {
  }

  /** The program is rejected with "the first command must be G or M"
      exactly when its first block has neither. */
  lemma {:induction false} GroupedFirstError(p: Program, init: Block)
    requires p != []
    ensures Grouped(p, init) == Err(FirstNotGOrM) <==> 'G' !in p[0] && 'M' !in p[0]
  {
    if |p| == 1 {
      assert p[..0] == [];
    } else {
      var q := p[..|p| - 1];
      GroupedFirstError(q, init);
      assert q[0] == p[0];
      if 'G' !in p[0] && 'M' !in p[0] {
        GroupErrorStays(p, |q|, init);
      }
    }
  }

  /** A block with neither G nor M joins the last group when that group's
      front has G, and is "not clear if the command is about G or M"
      otherwise. */
  lemma GroupedAxisOnly(p: Program, e: Block, init: Block)
    requires Grouped(p, init).Ok? && p != []
    requires 'G' !in e && 'M' !in e
    ensures var gs := Grouped(p, init).value;
      Grouped(p + [e], init).Err? <==> 'G' !in gs[|gs| - 1][0]
    ensures Grouped(p + [e], init).Err? ==> Grouped(p + [e], init).error == UnclearGOrM
  {
    assert (p + [e])[..|p|] == p;
  }

  /** Every block of a group that has G has the (int) G of its front. */
  predicate SameCommand(g: Group)
  {
    forall j :: 0 <= j < |g| && 'G' in g[j] ==> 'G' in g[0] && Trunc(g[j]['G']) == Trunc(g[0]['G'])
  }

  /** A group starts with a G block, or is a single M block. */
  predicate Fronted(g: Group)
  {
    'G' in g[0] || (|g| == 1 && 'M' in g[0])
  }

  /** A group of G1 moves starts with a feedrate. */
  predicate FeedSet(g: Group)
  {
    'G' in g[0] && Trunc(g[0]['G']) == 1 ==> 'F' in g[0]
  }

  predicate WellGrouped(gs: seq<Group>)
  {
    forall i :: 0 <= i < |gs| ==> Fronted(gs[i]) && SameCommand(gs[i]) && FeedSet(gs[i])
  }

  lemma PlaceKeepsShape(gs: seq<Group>, e: Block)
    requires WellGrouped(gs) && Place(gs, e).Ok?
    ensures var r := Place(gs, e).value;
      (forall i :: 0 <= i < |r| - 1 ==> Fronted(r[i]) && SameCommand(r[i]) && FeedSet(r[i])) &&
      Fronted(r[|r| - 1]) && SameCommand(r[|r| - 1]) &&
      (r[|r| - 1] == [e] || (|r[|r| - 1]| >= 2 && FeedSet(r[|r| - 1])))
  {
    PlaceShape(gs, e);
    var r := Place(gs, e).value;
    if gs != [] && r == gs[..|gs| - 1] + [gs[|gs| - 1] + [e]] {
      var g := gs[|gs| - 1];
      assert r[|r| - 1] == g + [e];
      assert Fronted(g) && SameCommand(g) && FeedSet(g);
      if 'G' in e {
        assert 'G' in g[0] && g[0]['G'] == e['G'];
      }
      assert SameCommand(g + [e]);
    }
  }

  lemma PatchKeepsShape(gs: seq<Group>, e: Block, cur: Block)
    requires |gs| > 0
    requires forall i :: 0 <= i < |gs| - 1 ==> Fronted(gs[i]) && SameCommand(gs[i]) && FeedSet(gs[i])
    requires Fronted(gs[|gs| - 1]) && SameCommand(gs[|gs| - 1])
    requires gs[|gs| - 1] == [e] || (|gs[|gs| - 1]| >= 2 && FeedSet(gs[|gs| - 1]))
    requires Patch(gs, e, cur).Ok?
    ensures WellGrouped(Patch(gs, e, cur).value)
  {
    var r := Patch(gs, e, cur).value;
    if NeedsFeedrate(gs[|gs| - 1]) {
      var g := r[|r| - 1];
      assert g == [FeedHead(cur['F']), e];
      assert SameCommand(g);
    }
  }

  /** Every successful grouping is well formed: each group starts with G or
      is a lone M block, keeps one (int) G, and a G1 group starts with a
      feedrate. */
  lemma {:induction false} GroupedWellFormed(p: Program, init: Block)
    requires Grouped(p, init).Ok?
    ensures WellGrouped(Grouped(p, init).value)
  {
    if p != [] {
      var q, e := p[..|p| - 1], p[|p| - 1];
      GroupedWellFormed(q, init);
      var gs := Grouped(q, init).value;
      PlaceKeepsShape(gs, e);
      PatchKeepsShape(Place(gs, e).value, e, GroupState(p, init));
    }
  }

  lemma {:induction false} GroupStateKeys(p: Program, init: Block)
    ensures init.Keys <= GroupState(p, init).Keys
  {
    if p != [] {
      GroupStateKeys(p[..|p| - 1], init);
    }
  }

  /** With a feedrate in the initial state (the default is F1), `at` never
      throws: the only errors left are the two invalid_argument ones. */
  lemma {:induction false} GroupedNoOutOfRange(p: Program, init: Block)
    requires 'F' in init
    ensures Grouped(p, init) != Err(OutOfRange)
  {
    if p != [] {
      var q, e := p[..|p| - 1], p[|p| - 1];
      GroupedNoOutOfRange(q, init);
      GroupStateKeys(p, init);
      if Grouped(q, init).Ok? {
        GroupedWellFormed(q, init);
        var gs := Grouped(q, init).value;
        if gs != [] {
          var g := gs[|gs| - 1];
          assert Fronted(g);
        }
      }
    }
  }

  /** A group without a generated feedrate head in front. */
  function StripGroup(g: Group): seq<Block>
  {
    if g[0].Keys == {'G', 'F'} then g[1..] else g
  }

  /** The groups joined back together, generated heads left out. */
  function Unpatched(gs: seq<Group>): Program
  {
    if gs == [] then [] else Unpatched(gs[..|gs| - 1]) + StripGroup(gs[|gs| - 1])
  }

  lemma UnpatchedSnoc(gs: seq<Group>, g: Group)
    ensures Unpatched(gs + [g]) == Unpatched(gs) + StripGroup(g)
  {
    assert (gs + [g])[..|gs|] == gs;
  }

  /** No block of the program is itself exactly a G and an F. */
  predicate NoBareFeed(p: Program)
  {
    forall i :: 0 <= i < |p| ==> p[i].Keys != {'G', 'F'}
  }

  lemma PlaceUnpatched(gs: seq<Group>, e: Block)
    requires Place(gs, e).Ok? && e.Keys != {'G', 'F'}
    ensures Unpatched(Place(gs, e).value) == Unpatched(gs) + [e]
  {
    PlaceShape(gs, e);
    var r := Place(gs, e).value;
    if r == gs + [[e]] {
      UnpatchedSnoc(gs, [e]);
    } else {
      var init0, g := gs[..|gs| - 1], gs[|gs| - 1];
      assert gs == init0 + [g];
      UnpatchedSnoc(init0, g);
      UnpatchedSnoc(init0, g + [e]);
      assert StripGroup(g + [e]) == StripGroup(g) + [e];
    }
  }

  lemma PatchUnpatched(gs: seq<Group>, e: Block, cur: Block)
    requires |gs| > 0 && Patch(gs, e, cur).Ok? && e.Keys != {'G', 'F'}
    requires NeedsFeedrate(gs[|gs| - 1]) ==> gs[|gs| - 1] == [e]
    ensures Unpatched(Patch(gs, e, cur).value) == Unpatched(gs)
  {
    if NeedsFeedrate(gs[|gs| - 1]) {
      var init0 := gs[..|gs| - 1];
      assert gs == init0 + [[e]];
      UnpatchedSnoc(init0, [e]);
      var head: Group := [FeedHead(cur['F']), e];
      UnpatchedSnoc(init0, head);
      assert head[0].Keys == {'G', 'F'};
      assert StripGroup(head) == [e];
    }
  }

  /** Grouping only cuts the program into pieces and puts feedrate heads in
      front of some of them: joining the groups and leaving the heads out
      gives the program back (when no block of its own is a bare G and F). */
  lemma {:induction false} GroupedUnpatched(p: Program, init: Block)
    requires Grouped(p, init).Ok? && NoBareFeed(p)
    ensures Unpatched(Grouped(p, init).value) == p
  {
    if p != [] {
      var q, e := p[..|p| - 1], p[|p| - 1];
      assert NoBareFeed(q);
      GroupedUnpatched(q, init);
      var gs := Grouped(q, init).value;
      PlaceShape(gs, e);
      PlaceUnpatched(gs, e);
      PatchUnpatched(Place(gs, e).value, e, GroupState(p, init));
      SplitLast(p);
    }
  }

  lemma SplitLast<T>(s: seq<T>)
    requires |s| > 0
    ensures s[..|s| - 1] + [s[|s| - 1]] == s
  {
  }
}
