/**
 * GcdCommandsInterpreter: executes one line of G-code on a machine.  A line
 * is scanned into (code letter, number text) pairs, the pairs are split into
 * sub-commands, each opened by a G or an M, and each sub-command is handed
 * to the executor of its letter; the executors' replies are joined with
 * "; " and passed to the callback with the line number.
 *
 * The machine is a value: what the interpreter reads from it (position,
 * whether the steppers are on, end stops, the button it reports), whether a
 * break was requested, and the log of every call made to it.
 */
module GcdCommands {

  import opened Common
  import opened GcodeBlocks

  /** frMultiplier: 1 (mm/s); nothing in the interpreter changes it. */
  const FrMultiplier: real := 1.0

  type Position = s: seq<real> | |s| == 3 witness [0.0, 0.0, 0.0]

  type Endstops = s: seq<int> | |s| == 4 witness [0, 0, 0, 0]

  /** A call made to the machine. */
  datatype MachineCall =
    | GotoXYZ(target: Position, speed: real, axes: int, v0: real, v0ddt: real)
    | Pause(ms: int)
    | SetPosition(to: Position)
    | SpindleEnabled(on: bool)
    | SteppersEnable(on: bool)
    | WaitFinish
    | Home(homed: seq<nat>)
    | WaitForEndstopTrigger

  datatype Machine = Machine(position: Position, steppersOn: bool, endstops: Endstops, button: int,
                             doBreak: bool, log: seq<MachineCall>)

  function Logged(mc: Machine, c: MachineCall): Machine
  {
    mc.(log := mc.log + [c])
  }

  /** Axis i is selected when bit i of the mask is set. */
  predicate Selects(axes: int, i: nat)
    requires i < 3
  {
    (if i == 0 then axes else if i == 1 then axes / 2 else axes / 4) % 2 == 1
  }

  /** gotoXYZ: the selected axes go to the target; a pending break throws
      BreakException instead (and is cleared). */
  function Goto(mc: Machine, target: Position, speed: real, axes: int, v0: real, v0ddt: real): (r: (Machine, bool))
    ensures r.0.log == mc.log + [GotoXYZ(target, speed, axes, v0, v0ddt)]
    ensures r.1 == mc.doBreak && !r.0.doBreak
    ensures r.0.steppersOn == mc.steppersOn && r.0.endstops == mc.endstops && r.0.button == mc.button
    ensures r.1 ==> r.0.position == mc.position
    ensures !r.1 ==> forall i :: 0 <= i < 3 ==>
      r.0.position[i] == if Selects(axes, i) then target[i] else mc.position[i]
  {
    var m := Logged(mc, GotoXYZ(target, speed, axes, v0, v0ddt));
    if mc.doBreak then (m.(doBreak := false), true)
    else
      var p: Position := [if Selects(axes, 0) then target[0] else mc.position[0],
                          if Selects(axes, 1) then target[1] else mc.position[1],
                          if Selects(axes, 2) then target[2] else mc.position[2]];
      (m.(position := p), false)
  }

  /** The replies of the executors. */
  datatype Message =
    | Commented | Executed | Dwelled | ResetTo(p: Position) | NotEnabled | Origin(p: Position) | UnsupportedG
    | SpindleOnCW | SpindleOff | SteppersOn | SteppersOff | PositionIs(p: Position) | EndstopsAre(e: Endstops)
    | ButtonPressed(button: int) | Unrecognized

  /** What an executor gives back: its reply, or the BreakException. */
  datatype Reply = Said(msg: Message) | Broken

  /** The fields of the interpreter. */
  datatype Interp = Interp(line: int, g0speed: real, g1speed: real, v0: real, v0ddt: real, machine: Machine)

  // ---------------------------------------------------------------------------
  // The G executor

  /** 1 for X, 2 for Y, 4 for Z: the axes the block names. */
  function AxesMask(m: Block): int
  {
    (if 'X' in m then 1 else 0) + (if 'Y' in m then 2 else 0) + (if 'Z' in m then 4 else 0)
  }

  /** G0 and G1: a missing F is the remembered speed of that code, a given F
      becomes the remembered speed; the named axes move. */
  function GMove(st: Interp, m: Block, g: int): (r: (Interp, Reply))
    requires g == 0 || g == 1
    ensures r.0.line == st.line && r.0.v0 == st.v0 && r.0.v0ddt == st.v0ddt
  {
    var pos: Position := [Get(m, 'X'), Get(m, 'Y'), Get(m, 'Z')];
    var f := if 'F' in m then m['F'] else if g == 0 then st.g0speed * FrMultiplier else st.g1speed * FrMultiplier;
    var g0 := if g == 0 && 'F' in m then m['F'] / FrMultiplier else st.g0speed;
    var g1 := if g == 1 && 'F' in m then m['F'] / FrMultiplier else st.g1speed;
    var moved := Goto(st.machine, pos, f / FrMultiplier, AxesMask(m), st.v0, st.v0ddt);
    (st.(g0speed := g0, g1speed := g1, machine := moved.0), if moved.1 then Broken else Said(Executed))
  }

  /** The dwell time: P milliseconds, else X seconds, else 0. */
  function DwellTime(m: Block, default: int): int
  {
    if 'P' in m then Trunc(m['P']) else if 'X' in m then Trunc(1000.0 * m['X']) else default
  }

  /** The place of an axis in the homing order Z, X, Y. */
  function HomeRank(a: nat): nat
  {
    if a == 2 then 0 else a + 1
  }

  /** G28: the axes to home, in the order Z, X, Y; none named means all.
      At least one axis is homed, each axis at most once. */
  function HomedAxes(m: Block): (r: seq<nat>)
    ensures 0 < |r| <= 3
    ensures forall k :: 0 <= k < |r| ==> r[k] < 3
    ensures forall a, b :: 0 <= a < b < |r| ==> HomeRank(r[a]) < HomeRank(r[b])
  {
    var all := 'X' !in m && 'Y' !in m && 'Z' !in m;
    (if all || 'Z' in m then [2] else []) + (if all || 'X' in m then [0] else []) + (if all || 'Y' in m then [1] else [])
  }

  function GExec(st: Interp, m: Block): (r: (Interp, Reply))
    ensures r.0.line == st.line && r.0.v0 == st.v0 && r.0.v0ddt == st.v0ddt
  {
    var g := Trunc(Get(m, 'G'));
    if g == 0 || g == 1 then GMove(st, m, g)
    else if g == 4 then
      (st.(machine := Logged(st.machine, Pause(DwellTime(m, 0)))), Said(Dwelled))
    else if g == 92 then
      var p: Position := [Get(m, 'X'), Get(m, 'Y'), Get(m, 'Z')];
      var mc := Logged(st.machine, SetPosition(p)).(position := p);
      (st.(machine := mc), Said(ResetTo(p)))
    else if g == 28 then
      var mc := Logged(st.machine, WaitFinish);
      if !mc.steppersOn then (st.(machine := mc), Said(NotEnabled))
      else
        var mc2 := Logged(mc, Home(HomedAxes(m)));
        (st.(machine := mc2), Said(Origin(mc2.position)))
    else (st, Said(UnsupportedG))
  }

  // ---------------------------------------------------------------------------
  // The M executor

  /** M3 and M5: the spindle is switched, then a pause of t ms when t > 0. */
  function Spindle(st: Interp, m: Block, on: bool, default: int, reply: Message): (r: (Interp, Reply))
    ensures r.1 == Said(reply)
    ensures r.0.(machine := st.machine) == st && r.0.machine.(log := st.machine.log) == st.machine
    ensures var t := DwellTime(m, default);
      r.0.machine.log == st.machine.log + [SpindleEnabled(on)] + (if t > 0 then [Pause(t)] else [])
  {
    var t := DwellTime(m, default);
    var mc := Logged(st.machine, SpindleEnabled(on));
    (st.(machine := if t > 0 then Logged(mc, Pause(t)) else mc), Said(reply))
  }

  function MExec(st: Interp, m: Block): (r: (Interp, Reply))
    ensures r.0.(machine := st.machine) == st
  {
    var code := Trunc(Get(m, 'M'));
    if code == 3 then Spindle(st, m, true, 7000, SpindleOnCW)
    else if code == 5 then Spindle(st, m, false, 0, SpindleOff)
    else if code == 17 then
      (st.(machine := Logged(st.machine, SteppersEnable(true)).(steppersOn := true)), Said(SteppersOn))
    else if code == 18 then
      (st.(machine := Logged(st.machine, SteppersEnable(false)).(steppersOn := false)), Said(SteppersOff))
    else if code == 114 then (st, Said(PositionIs(st.machine.position)))
    else if code == 119 then (st, Said(EndstopsAre(st.machine.endstops)))
    else if code == 577 then
      var mc := Logged(st.machine, WaitForEndstopTrigger);
      if mc.doBreak then (st.(machine := mc.(doBreak := false)), Broken)
      else (st.(machine := mc), Said(ButtonPressed(mc.button)))
    else (st, Said(Unrecognized))
  }

  function PositionText(p: Position): string
  {
    "X:" + FixedSix(p[0]) + " Y:" + FixedSix(p[1]) + " Z:" + FixedSix(p[2])
  }

  /** The replies that report a failure. */
  predicate IsFailure(m: Message)
  {
    m.NotEnabled? || m.UnsupportedG? || m.Unrecognized?
  }

  /** What follows "ok " or "!! " in the text of a reply (std::to_string of
      a double prints six decimals). */
  function Detail(m: Message): string
  {
    match m
    case Commented => "comment"
    case Executed => "executed movement"
    case Dwelled => "dwell executed"
    case ResetTo(p) => "reset position to " + PositionText(p)
    case NotEnabled => "steppers not enabled, can't move"
    case Origin(p) => "origin " + PositionText(p)
    case UnsupportedG => "unsupported G code number"
    case SpindleOnCW => "spindle on CW"
    case SpindleOff => "spindle off"
    case SteppersOn => "steppers on"
    case SteppersOff => "steppers off"
    case PositionIs(p) => "position " + PositionText(p)
    case EndstopsAre(e) =>
      "endstops: X:" + IntToString(e[0]) + " Y:" + IntToString(e[1]) + " Z:" + IntToString(e[2]) +
      " T:" + IntToString(e[3])
    case ButtonPressed(b) => "button pressed " + IntToString(b)
    case Unrecognized => "unrecognized command"
  }

  /** The text of a reply: "!! " for the three failures, "ok " for every
      other reply, then the detail. */
  function MessageText(m: Message): (r: string)
    ensures |r| > 3 && r[3..] == Detail(m)
    ensures r[..3] == "!! " <==> IsFailure(m)
    ensures r[..3] == "ok " <==> !IsFailure(m)
  {
    var tag := if IsFailure(m) then "!! " else "ok ";
    var r := tag + Detail(m);
    assert r[..3] == tag && r[3..] == Detail(m);
    r
  }

  /** The reply to a comment, written out. */
  lemma CommentText()
    ensures MessageText(Commented) == "ok comment"
  {
    assert !IsFailure(Commented) && Detail(Commented) == "comment";
    assert "ok " + "comment" == "ok comment";
  }

  // ---------------------------------------------------------------------------
  // Properties of the executors

  function AxisLetter(i: nat): char
    requires i < 3
  {
    if i == 0 then 'X' else if i == 1 then 'Y' else 'Z'
  }

  /** Bit i of the mask is set exactly when the block names axis i. */
  lemma MaskSelects(m: Block, i: nat)
    requires i < 3
    ensures Selects(AxesMask(m), i) <==> AxisLetter(i) in m
  {
    var a := if 'X' in m then 1 else 0;
    var b := if 'Y' in m then 2 else 0;
    var c := if 'Z' in m then 4 else 0;
    assert AxesMask(m) == a + b + c;
  }

  /** The one call a G0 or G1 makes to the machine, and the speeds it
      leaves: the feed F is used and remembered for that code only; without
      F the code's remembered speed is used. */
  lemma MoveSpeed(st: Interp, m: Block)
    requires Trunc(Get(m, 'G')) == 0 || Trunc(Get(m, 'G')) == 1
    ensures var g := Trunc(Get(m, 'G'));
      var r := GExec(st, m);
      var n := |st.machine.log|;
      |r.0.machine.log| == n + 1 && r.0.machine.log[..n] == st.machine.log &&
      r.0.machine.log[n] == GotoXYZ([Get(m, 'X'), Get(m, 'Y'), Get(m, 'Z')],
                                    if 'F' in m then m['F'] else if g == 0 then st.g0speed else st.g1speed,
                                    AxesMask(m), st.v0, st.v0ddt) &&
      r.0.g0speed == (if g == 0 && 'F' in m then m['F'] else st.g0speed) &&
      r.0.g1speed == (if g == 1 && 'F' in m then m['F'] else st.g1speed)
  {
  }

  /** A G1 (or G0) without F moves at the feed of the previous G1 (or G0)
      that gave one. */
  lemma SpeedRemembered(st: Interp, m1: Block, m2: Block)
    requires Trunc(Get(m1, 'G')) == Trunc(Get(m2, 'G')) && (Trunc(Get(m1, 'G')) == 0 || Trunc(Get(m1, 'G')) == 1)
    requires 'F' in m1 && 'F' !in m2
    ensures var st2 := GExec(GExec(st, m1).0, m2).0;
      |st2.machine.log| > 0 && st2.machine.log[|st2.machine.log| - 1].GotoXYZ? &&
      st2.machine.log[|st2.machine.log| - 1].speed == m1['F']
  {
    MoveSpeed(st, m1);
    MoveSpeed(GExec(st, m1).0, m2);
  }

  /** Without a pending break, a G0 or G1 takes the named axes to their
      values and leaves the others where they are. */
  lemma MoveReaches(st: Interp, m: Block, i: nat)
    requires Trunc(Get(m, 'G')) == 0 || Trunc(Get(m, 'G')) == 1
    requires !st.machine.doBreak && i < 3
    ensures GExec(st, m).1 == Said(Executed)
    ensures GExec(st, m).0.machine.position[i] ==
      if AxisLetter(i) in m then m[AxisLetter(i)] else st.machine.position[i]
  {
    MaskSelects(m, i);
  }

  /** A pending break turns the move into a BreakException: the break is
      cleared and nothing moves. */
  lemma MoveBreaks(st: Interp, m: Block)
    requires Trunc(Get(m, 'G')) == 0 || Trunc(Get(m, 'G')) == 1
    requires st.machine.doBreak
    ensures GExec(st, m).1 == Broken
    ensures !GExec(st, m).0.machine.doBreak && GExec(st, m).0.machine.position == st.machine.position
  {
  }

  /** Only G0 and G1 change the remembered speeds; every other G code
      changes at most the machine. */
  lemma GExecFrame(st: Interp, m: Block)
    requires Trunc(Get(m, 'G')) != 0 && Trunc(Get(m, 'G')) != 1
    ensures GExec(st, m).0.(machine := st.machine) == st
  {
  }

  /** G4 pauses for P milliseconds, else X seconds, else not at all. */
  lemma DwellPauses(st: Interp, m: Block)
    requires Trunc(Get(m, 'G')) == 4
    ensures GExec(st, m) == (st.(machine := Logged(st.machine, Pause(DwellTime(m, 0)))), Said(Dwelled))
    ensures DwellTime(m, 0) == if 'P' in m then Trunc(m['P']) else if 'X' in m then Trunc(1000.0 * m['X']) else 0
  {
  }

  /** What G92 sets (missing axes as 0) is what M114 reports afterwards. */
  lemma ResetThenReport(st: Interp, m: Block, q: Block)
    requires Trunc(Get(m, 'G')) == 92 && Trunc(Get(q, 'M')) == 114
    ensures var p: Position := [Get(m, 'X'), Get(m, 'Y'), Get(m, 'Z')];
      GExec(st, m).1 == Said(ResetTo(p)) && MExec(GExec(st, m).0, q).1 == Said(PositionIs(p))
  {
  }

  /** G28 homes only with the steppers on: after M18 it answers that it
      cannot move and moves nothing; after M17 it homes Z, X, Y. */
  lemma SteppersGateHoming(st: Interp, on: Block, off: Block, home: Block)
    requires Trunc(Get(on, 'M')) == 17 && Trunc(Get(off, 'M')) == 18 && Trunc(Get(home, 'G')) == 28
    ensures var r := GExec(MExec(st, off).0, home);
      r.1 == Said(NotEnabled) && r.0.machine.position == st.machine.position &&
      r.0.machine.log == st.machine.log + [SteppersEnable(false), WaitFinish]
    ensures var r := GExec(MExec(st, on).0, home);
      r.1 == Said(Origin(st.machine.position)) &&
      r.0.machine.log == st.machine.log + [SteppersEnable(true), WaitFinish, Home(HomedAxes(home))]
  {
  }

  /** G28 with no axis homes all three, Z first; otherwise exactly the named
      ones. */
  lemma HomedAxesNamed(m: Block, i: nat)
    requires i < 3
    ensures 'X' !in m && 'Y' !in m && 'Z' !in m ==> HomedAxes(m) == [2, 0, 1]
    ensures 'X' in m || 'Y' in m || 'Z' in m ==> (i in HomedAxes(m) <==> AxisLetter(i) in m)
  {
  }

  /** M3 without P or X pauses 7 seconds after switching the spindle on; M5
      without them does not pause. */
  lemma SpindleDefaultPause(st: Interp, on: Block, off: Block)
    requires Trunc(Get(on, 'M')) == 3 && Trunc(Get(off, 'M')) == 5
    requires 'P' !in on && 'X' !in on && 'P' !in off && 'X' !in off
    ensures MExec(st, on) == (st.(machine := st.machine.(log := st.machine.log + [SpindleEnabled(true), Pause(7000)])), Said(SpindleOnCW))
    ensures MExec(st, off) == (st.(machine := st.machine.(log := st.machine.log + [SpindleEnabled(false)])), Said(SpindleOff))
  {
    assert st.machine.log + [SpindleEnabled(true)] + [Pause(7000)] == st.machine.log + [SpindleEnabled(true), Pause(7000)];
  }

  /** M577 waits for a button; a pending break throws instead. */
  lemma ButtonWait(st: Interp, m: Block)
    requires Trunc(Get(m, 'M')) == 577
    ensures MExec(st, m).1 == if st.machine.doBreak then Broken else Said(ButtonPressed(st.machine.button))
    ensures !MExec(st, m).0.machine.doBreak
  {
  }

  /** An unknown G or M number is answered and changes nothing. */
  lemma UnknownCodes(st: Interp, m: Block)
    ensures var g := Trunc(Get(m, 'G'));
      g != 0 && g != 1 && g != 4 && g != 28 && g != 92 ==> GExec(st, m) == (st, Said(UnsupportedG))
    ensures var c := Trunc(Get(m, 'M'));
      c != 3 && c != 5 && c != 17 && c != 18 && c != 114 && c != 119 && c != 577 ==> MExec(st, m) == (st, Said(Unrecognized))
  {
  }

  // ---------------------------------------------------------------------------
  // Scanning a line into (code, number text) pairs

  /** The white space the scanner skips: space, new line, carriage return
      (not tab). */
  predicate IsSkipped(c: char)
  {
    c == ' ' || c == '\n' || c == '\r'
  }

  predicate IsCode(c: char)
  {
    'A' <= c <= 'Z'
  }

  predicate IsNumChar(c: char)
  {
    IsDigit(c) || c == '-' || c == '.'
  }

  function SkipFrom(s: string, i: nat): (j: nat)
    requires i <= |s|
    ensures i <= j <= |s|
    ensures forall k :: i <= k < j ==> IsSkipped(s[k])
    ensures j == |s| || !IsSkipped(s[j])
    decreases |s| - i
  {
    if i < |s| && IsSkipped(s[i]) then SkipFrom(s, i + 1) else i
  }

  function NumberFrom(s: string, i: nat): (j: nat)
    requires i <= |s|
    ensures i <= j <= |s|
    ensures forall k :: i <= k < j ==> IsNumChar(s[k])
    ensures j == |s| || !IsNumChar(s[j])
    decreases |s| - i
  {
    if i < |s| && IsNumChar(s[i]) then NumberFrom(s, i + 1) else i
  }

  type Pair = (char, string)

  /** A number text as the scanner collects it: digits, '-' and '.'. */
  predicate NumText(t: string)
  {
    forall q :: 0 <= q < |t| ==> IsNumChar(t[q])
  }

  /** The pairs from position i on, with the code letter read last, and
      whether a character other than A..Z stood where a code was expected
      (which ends the scan).  With `trim`, white space at the end of the line
      ends the scan; the source does not do this (`trim` is false there) and
      reads one more pair, the last code with an empty number. */
  function PairsFrom(s: string, i: nat, code: char, trim: bool): (r: (seq<Pair>, bool))
    requires i <= |s|
    ensures |r.0| <= |s| - i
    ensures forall k :: 0 <= k < |r.0| ==> (IsCode(r.0[k].0) || r.0[k].0 == code) && NumText(r.0[k].1)
    decreases |s| - i
  {
    if i == |s| then ([], false)
    else
      var j := SkipFrom(s, i);
      if trim && j == |s| then ([], false)
      else if j < |s| && !IsCode(s[j]) then ([], true)
      else
        var c := if j < |s| then s[j] else code;
        var k := SkipFrom(s, if j < |s| then j + 1 else j);
        var n := NumberFrom(s, k);
        var rest := PairsFrom(s, n, c, trim);
        ([(c, s[k..n])] + rest.0, rest.1)
  }

  /** The scan stops early only at a character that is neither skipped
      white space nor a code letter. */
  lemma {:induction false} PairsStopAtStray(s: string, i: nat, code: char, trim: bool)
    requires i <= |s| && PairsFrom(s, i, code, trim).1
    ensures exists k :: i <= k < |s| && !IsCode(s[k]) && !IsSkipped(s[k])
    decreases |s| - i
  {
    var j := SkipFrom(s, i);
    if j < |s| && !IsCode(s[j]) {
      assert i <= j < |s| && !IsCode(s[j]) && !IsSkipped(s[j]);
    } else if j < |s| {
      var k := SkipFrom(s, j + 1);
      var n := NumberFrom(s, k);
      PairsStopAtStray(s, n, s[j], trim);
    } else {
      // only white space is left: the scan ends without a stray
      assert false;
    }
  }

  /** The scan of a whole line starts with the code ' '. */
  function Pairs(s: string): (seq<Pair>, bool)
  {
    PairsFrom(s, 0, ' ', false)
  }

  /** The scan with white space at the end of the line ignored. */
  function PairsTrimmed(s: string): (seq<Pair>, bool)
  {
    PairsFrom(s, 0, ' ', true)
  }

  /** skipWhitespaces of execCommand. */
  method SkipWhitespaces(gcd: string, i: nat) returns (j: nat)
    requires i <= |gcd|
    ensures j == SkipFrom(gcd, i)
  {
    j := i;
    while j < |gcd| && IsSkipped(gcd[j])
      invariant i <= j <= |gcd| && SkipFrom(gcd, j) == SkipFrom(gcd, i)
    {
      j := j + 1;
    }
  }

  /** The number text after a code letter. */
  method ReadNumber(gcd: string, k: nat) returns (codeNumS: string, n: nat)
    requires k <= |gcd|
    ensures n == NumberFrom(gcd, k) && codeNumS == gcd[k..n]
  {
    codeNumS := "";
    n := k;
    while n < |gcd| && IsNumChar(gcd[n])
      invariant k <= n <= |gcd| && NumberFrom(gcd, n) == NumberFrom(gcd, k)
      invariant codeNumS == gcd[k..n]
    {
      assert gcd[k..n + 1] == gcd[k..n] + [gcd[n]];
      codeNumS := codeNumS + [gcd[n]];
      n := n + 1;
    }
  }

  /** One round of the scanning loop: white space, the code letter (or the
      end of the scan at any other character), white space, the number. */
  method ScanPair(gcd: string, i: nat, code: char) returns (pair: Pair, next: nat, bad: bool)
    requires i < |gcd|
    ensures bad ==> PairsFrom(gcd, i, code, false) == ([], true)
    ensures !bad ==> i < next <= |gcd|
    ensures !bad ==> PairsFrom(gcd, i, code, false) == ([pair] + PairsFrom(gcd, next, pair.0, false).0, PairsFrom(gcd, next, pair.0, false).1)
  {
    var cmndCode := code;
    next := SkipWhitespaces(gcd, i);
    bad := false;
    if next < |gcd| {
      if IsCode(gcd[next]) {
        cmndCode := gcd[next];
        next := next + 1;
      } else {
        bad := true;
        pair := (code, "");
        return;
      }
    }
    next := SkipWhitespaces(gcd, next);
    var codeNumS;
    codeNumS, next := ReadNumber(gcd, next);
    pair := (cmndCode, codeNumS);
  }

  /** The scanning loop of execCommand. */
  method ScanPairs(gcd: string) returns (commandSequence: seq<Pair>, bad: bool)
    ensures (commandSequence, bad) == Pairs(gcd)
  {
    commandSequence := [];
    bad := false;
    var i := 0;
    var cmndCode := ' ';
    while i < |gcd|
      invariant 0 <= i <= |gcd|
      invariant commandSequence + PairsFrom(gcd, i, cmndCode, false).0 == Pairs(gcd).0
      invariant PairsFrom(gcd, i, cmndCode, false).1 == Pairs(gcd).1
      decreases |gcd| - i
    {
      var pair, next, b := ScanPair(gcd, i, cmndCode);
      if b {
        bad := true;
        assert commandSequence + [] == commandSequence;
        return;
      }
      assert commandSequence + ([pair] + PairsFrom(gcd, next, pair.0, false).0) == (commandSequence + [pair]) + PairsFrom(gcd, next, pair.0, false).0;
      commandSequence := commandSequence + [pair];
      cmndCode := pair.0;
      i := next;
    }
    assert commandSequence + [] == commandSequence;
  }

  // ---------------------------------------------------------------------------
  // Splitting the pairs into sub-commands

  /** A sub-command: the G or M that opened it and its arguments. */
  datatype Sub = Sub(code: char, args: Block)

  /** The letters with an executor. */
  predicate IsExecutor(c: char)
  {
    c == 'G' || c == 'M'
  }

  /** A pair with its text converted by std::stod; None where std::stod
      throws std::invalid_argument.  The conversion only matters where a
      pair is read, which is where the source calls std::stod. */
  type Arg = (char, Option<real>)

  function Converted(pairs: seq<Pair>): (args: seq<Arg>)
    ensures |args| == |pairs|
    ensures forall k :: 0 <= k < |pairs| ==> args[k] == (pairs[k].0, StodPrefix(pairs[k].1))
  {
    seq(|pairs|, k requires 0 <= k < |pairs| => (pairs[k].0, StodPrefix(pairs[k].1)))
  }

  /** One pair: it is first written into the open sub-command, then a G or
      M opens a new one; before the first G or M it is not read at all. */
  function SubStep(prev: Option<seq<Sub>>, a: Arg): (r: Option<seq<Sub>>)
    ensures r.Some? ==> prev.Some? && |r.value| == |prev.value| + (if IsExecutor(a.0) then 1 else 0)
    ensures r.Some? ==> forall k :: 0 <= k < |prev.value| ==>
      r.value[k].code == prev.value[k].code && (prev.value[k].code in prev.value[k].args ==> r.value[k].code in r.value[k].args)
    ensures r.Some? && IsExecutor(a.0) ==> a.1.Some? && r.value[|r.value| - 1] == Sub(a.0, map[a.0 := a.1.value])
  {
    if prev.None? then None
    else
      var subs := prev.value;
      var c := a.0;
      if (|subs| > 0 || IsExecutor(c)) && a.1.None? then None
      else
        var written := if |subs| > 0 then subs[..|subs| - 1] + [Sub(subs[|subs| - 1].code, subs[|subs| - 1].args[c := a.1.value])]
                       else subs;
        if IsExecutor(c) then Some(written + [Sub(c, map[c := a.1.value])]) else Some(written)
  }

  /** The sub-commands of the converted pairs; None when std::stod throws. */
  function Subs(args: seq<Arg>): Option<seq<Sub>>
  {
    if args == [] then Some([]) else SubStep(Subs(args[..|args| - 1]), args[|args| - 1])
  }

  lemma SubsStep(args: seq<Arg>, i: nat)
    requires i < |args|
    ensures Subs(args[..i + 1]) == SubStep(Subs(args[..i]), args[i])
  {
    assert args[..i + 1][..i] == args[..i];
  }

  lemma {:induction false} SubsNoneStays(args: seq<Arg>, n: nat)
    requires n <= |args| && Subs(args[..n]).None?
    ensures Subs(args).None?
    decreases |args| - n
  {
    if n < |args| {
      SubsStep(args, n);
      SubsNoneStays(args, n + 1);
    } else {
      assert args[..n] == args;
    }
  }

  /** The splitting loop of execCommand. */
  method SplitSubCommands(commandSequence: seq<Pair>) returns (r: Option<seq<Sub>>)
    ensures r == Subs(Converted(commandSequence))
  {
    ghost var args := Converted(commandSequence);
    var subs: seq<Sub> := [];
    for i := 0 to |commandSequence|
      invariant Subs(args[..i]) == Some(subs)
    {
      SubsStep(args, i);
      var (c, text) := commandSequence[i];
      if |subs| > 0 {
        var v := StodPrefix(text);
        if v.None? {
          SubsNoneStays(args, i + 1);
          return None;
        }
        var last := subs[|subs| - 1];
        subs := subs[..|subs| - 1] + [Sub(last.code, last.args[c := v.value])];
      }
      if IsExecutor(c) {
        var v := StodPrefix(text);
        if v.None? {
          SubsNoneStays(args, i + 1);
          return None;
        }
        subs := subs + [Sub(c, map[c := v.value])];
      }
    }
    assert args[..|commandSequence|] == args;
    r := Some(subs);
  }

  // ---------------------------------------------------------------------------
  // Executing the sub-commands

  function ExecSub(st: Interp, s: Sub): (r: (Interp, Reply))
    ensures r.0.line == st.line && r.0.v0 == st.v0 && r.0.v0ddt == st.v0ddt
  {
    if s.code == 'G' then GExec(st, s.args) else MExec(st, s.args)
  }

  /** The sub-commands executed in order, with their replies; None when a
      BreakException stops the rest. */
  function RunSubs(st: Interp, subs: seq<Sub>): (r: (Interp, Option<seq<Message>>))
    ensures r.0.line == st.line && r.0.v0 == st.v0 && r.0.v0ddt == st.v0ddt
    ensures r.1.Some? ==> |r.1.value| == |subs|
  {
    if subs == [] then (st, Some([]))
    else
      var (st1, r1) := RunSubs(st, subs[..|subs| - 1]);
      if r1.None? then (st1, None)
      else
        var (st2, r2) := ExecSub(st1, subs[|subs| - 1]);
        if r2.Broken? then (st2, None) else (st2, Some(r1.value + [r2.msg]))
  }

  lemma RunSubsStep(st: Interp, subs: seq<Sub>, i: nat)
    requires i < |subs|
    ensures RunSubs(st, subs[..i + 1]) ==
      var (st1, r1) := RunSubs(st, subs[..i]);
      if r1.None? then (st1, None)
      else
        var (st2, r2) := ExecSub(st1, subs[i]);
        if r2.Broken? then (st2, None) else (st2, Some(r1.value + [r2.msg]))
  {
    assert subs[..i + 1][..i] == subs[..i];
  }

  lemma {:induction false} RunSubsBrokenStays(st: Interp, subs: seq<Sub>, n: nat)
    requires n <= |subs| && RunSubs(st, subs[..n]).1.None?
    ensures RunSubs(st, subs) == RunSubs(st, subs[..n])
    decreases |subs| - n
  {
    if n < |subs| {
      RunSubsStep(st, subs, n);
      RunSubsBrokenStays(st, subs, n + 1);
    } else {
      assert subs[..n] == subs;
    }
  }

  /** The replies joined with "; " after the text already in the result. */
  function Joined(prefix: string, said: seq<Message>): string
  {
    if said == [] then prefix
    else Joined(prefix, said[..|said| - 1]) + (if |said| > 1 then "; " else "") + MessageText(said[|said| - 1])
  }

  lemma JoinedSnoc(prefix: string, said: seq<Message>, m: Message)
    ensures Joined(prefix, said + [m]) == Joined(prefix, said) + (if |said| > 0 then "; " else "") + MessageText(m)
  {
    assert (said + [m])[..|said|] == said;
  }

  /** How execCommand ends: the callback with the line number and the
      result (the text of `prefix` followed by the replies), or an exception
      (std::invalid_argument from std::stod, or the machine's BreakException)
      before the callback. */
  datatype Outcome = Answered(line: int, prefix: string, said: seq<Message>) | StodFailed | BreakThrown

  /** The text the callback receives. */
  function CallbackText(o: Outcome): string
    requires o.Answered?
  {
    Joined(o.prefix, o.said)
  }

  /** The end of execCommand once the sub-commands have run. */
  function Conclude(run: (Interp, Option<seq<Message>>), prefix: string, line: int): (Interp, Outcome)
  {
    (run.0, if run.1.None? then BreakThrown else Answered(line, prefix, run.1.value))
  }

  function BadPrefix(bad: bool): string
  {
    if bad then "err bad gcode command" else ""
  }

  function Bumped(st: Interp): Interp
  {
    st.(line := st.line + 1)
  }

  /** execCommand: the line counter goes up first; an empty line or a
      comment is "ok comment"; otherwise scan, split and execute. */
  function Exec(st: Interp, gcd: string): (r: (Interp, Outcome))
  {
    var st1 := Bumped(st);
    if |gcd| == 0 || gcd[0] == ';' then (st1, Answered(st.line, "", [Commented]))
    else
      var scan := Pairs(gcd);
      var subs := Subs(Converted(scan.0));
      if subs.None? then (st1, StodFailed)
      else Conclude(RunSubs(st1, subs.value), BadPrefix(scan.1), st.line)
  }

  lemma ExecStodFails(st: Interp, gcd: string)
    requires |gcd| > 0 && gcd[0] != ';' && Subs(Converted(Pairs(gcd).0)).None?
    ensures Exec(st, gcd) == (Bumped(st), StodFailed)
  {
  }

  lemma ExecRuns(st: Interp, gcd: string, subs: seq<Sub>)
    requires |gcd| > 0 && gcd[0] != ';' && Subs(Converted(Pairs(gcd).0)) == Some(subs)
    ensures Exec(st, gcd) == Conclude(RunSubs(Bumped(st), subs), BadPrefix(Pairs(gcd).1), st.line)
  {
  }

  // ---------------------------------------------------------------------------
  // Properties of the scan

  /** Pairs that a line can be written from: a code letter A..Z and a text
      of digits, '-' and '.'. */
  predicate WellFormed(ws: seq<Pair>)
  {
    forall k :: 0 <= k < |ws| ==> IsCode(ws[k].0) && forall t :: 0 <= t < |ws[k].1| ==> IsNumChar(ws[k].1[t])
  }

  /** The line written from pairs, each code letter followed by its text. */
  function Render(ws: seq<Pair>): string
  {
    if ws == [] then "" else [ws[0].0] + ws[0].1 + Render(ws[1..])
  }

  function LastCode(ws: seq<Pair>, code: char): char
  {
    if ws == [] then code else ws[|ws| - 1].0
  }

  lemma SliceOfSlice<T>(s: seq<T>, i: nat, e: nat, a: nat, b: nat)
    requires i <= e <= |s| && a <= b <= e - i
    ensures s[i..e][a..b] == s[i + a..i + b]
  {
    forall k | 0 <= k < b - a
      ensures s[i..e][a..b][k] == s[i + a..i + b][k]
    {
      assert s[i..e][a..b][k] == s[i..e][a + k] == s[i + a + k];
    }
  }

  lemma HeadTail<T>(s: seq<T>)
    requires s != []
    ensures [s[0]] + s[1..] == s
  {
  }

  lemma ConsAppend<T>(x: T, xs: seq<T>, ys: seq<T>)
    ensures [x] + (xs + ys) == ([x] + xs) + ys
  {
  }

  lemma {:induction false} NumberFromSpan(s: string, k: nat, n: nat)
    requires k <= n <= |s|
    requires forall t :: k <= t < n ==> IsNumChar(s[t])
    requires n == |s| || !IsNumChar(s[n])
    ensures NumberFrom(s, k) == n
    decreases n - k
  {
    if k < n {
      NumberFromSpan(s, k + 1, n);
    }
  }

  lemma {:induction false} SkipFromBlank(s: string, k: nat)
    requires k <= |s|
    requires forall t :: k <= t < |s| ==> IsSkipped(s[t])
    ensures SkipFrom(s, k) == |s|
    decreases |s| - k
  {
    if k < |s| {
      SkipFromBlank(s, k + 1);
    }
  }

  /** A code letter at i followed by a number text ending at n is read as
      one pair when what follows cannot be taken for part of it. */
  lemma ScanFirst(s: string, i: nat, n: nat, code: char, trim: bool, p: Pair)
    requires i < n <= |s| && IsCode(s[i]) && p == (s[i], s[i + 1..n])
    requires forall t :: i + 1 <= t < n ==> IsNumChar(s[t])
    requires n < |s| ==> !IsNumChar(s[n]) && (n == i + 1 ==> !IsSkipped(s[n]))
    ensures PairsFrom(s, i, code, trim) == ([p] + PairsFrom(s, n, p.0, trim).0, PairsFrom(s, n, p.0, trim).1)
  {
    assert SkipFrom(s, i) == i;
    assert SkipFrom(s, i + 1) == i + 1 by {
      if n > i + 1 {
        assert IsNumChar(s[i + 1]);
      }
    }
    NumberFromSpan(s, i + 1, n);
  }

  /** The pairs after the first are well formed too. */
  lemma WellFormedTail(ws: seq<Pair>)
    requires WellFormed(ws) && ws != []
    ensures WellFormed(ws[1..])
  {
    var tail := ws[1..];
    forall k | 0 <= k < |tail|
      ensures IsCode(tail[k].0) && forall t :: 0 <= t < |tail[k].1| ==> IsNumChar(tail[k].1[t])
    {
      assert tail[k] == ws[k + 1];
    }
  }

  /** The first pair of a rendering: its letter, its text, and the
      rendering of the other pairs after them. */
  lemma RenderHead(s: string, i: nat, e: nat, ws: seq<Pair>)
    requires WellFormed(ws) && ws != []
    requires e == i + |Render(ws)| && e <= |s| && s[i..e] == Render(ws)
    ensures i + 1 + |ws[0].1| <= e
    ensures s[i] == ws[0].0 && IsCode(s[i]) && s[i + 1..i + 1 + |ws[0].1|] == ws[0].1
    ensures forall t :: i + 1 <= t < i + 1 + |ws[0].1| ==> IsNumChar(s[t])
    ensures e == i + 1 + |ws[0].1| + |Render(ws[1..])| && s[i + 1 + |ws[0].1|..e] == Render(ws[1..])
    ensures i + 1 + |ws[0].1| < e ==> IsCode(s[i + 1 + |ws[0].1|])
    ensures WellFormed(ws[1..])
  {
    var w := ws[0];
    var tail := ws[1..];
    var r1 := Render(tail);
    var e1 := i + 1 + |w.1|;
    var whole := s[i..e];
    assert whole == [w.0] + w.1 + r1;
    assert s[i] == whole[0];
    assert s[i + 1..e1] == w.1 by {
      SliceOfSlice(s, i, e, 1, 1 + |w.1|);
      assert whole[1..1 + |w.1|] == w.1;
    }
    assert s[e1..e] == r1 by {
      SliceOfSlice(s, i, e, 1 + |w.1|, e - i);
      assert whole[1 + |w.1|..e - i] == r1;
    }
    WellFormedTail(ws);
    forall t | i + 1 <= t < e1
      ensures IsNumChar(s[t])
    {
      assert s[t] == s[i + 1..e1][t - i - 1];
    }
    if e1 < e {
      assert tail != [];
      assert r1[0] == tail[0].0;
      assert s[e1] == s[e1..e][0];
    }
  }

  /** Scanning a line that continues with the rendering of `ws`, up to e,
      reads the pairs of `ws`, as long as what follows cannot be taken for
      part of the last number. */
  lemma {:induction false} RenderScans(s: string, i: nat, e: nat, ws: seq<Pair>, code: char, trim: bool)
    requires WellFormed(ws)
    requires e == i + |Render(ws)| && e <= |s| && s[i..e] == Render(ws)
    requires e < |s| ==> !IsNumChar(s[e])
    requires e < |s| && ws != [] && ws[|ws| - 1].1 == "" ==> !IsSkipped(s[e])
    ensures PairsFrom(s, i, code, trim) ==
      (ws + PairsFrom(s, e, LastCode(ws, code), trim).0, PairsFrom(s, e, LastCode(ws, code), trim).1)
    decreases |ws|
  {
    if ws == [] {
      assert ws + PairsFrom(s, i, code, trim).0 == PairsFrom(s, i, code, trim).0;
    } else {
      var w := ws[0];
      var tail := ws[1..];
      var e1 := i + 1 + |w.1|;
      RenderHead(s, i, e, ws);
      assert tail != [] ==> tail[|tail| - 1] == ws[|ws| - 1];
      ScanFirst(s, i, e1, code, trim, w);
      var mid := PairsFrom(s, e1, w.0, trim);
      var rest := PairsFrom(s, e, LastCode(ws, code), trim);
      assert LastCode(tail, w.0) == LastCode(ws, code);
      RenderScans(s, e1, e, tail, w.0, trim);
      assert mid == (tail + rest.0, rest.1);
      ConsAppend(w, tail, rest.0);
      HeadTail(ws);
    }
  }

  /** The scan reads back the pairs a line was written from. */
  lemma PairsOfRender(ws: seq<Pair>)
    requires WellFormed(ws)
    ensures Pairs(Render(ws)) == (ws, false)
    ensures PairsTrimmed(Render(ws)) == (ws, false)
  {
    var s := Render(ws);
    assert s[0..|s|] == s;
    RenderScans(s, 0, |Render(ws)|, ws, ' ', false);
    RenderScans(s, 0, |Render(ws)|, ws, ' ', true);
    assert ws + [] == ws;
  }

  /** A character that cannot start a pair (a small letter, a tab, ';')
      ends the scan, which reports the line as bad and keeps the pairs
      read before it. */
  lemma PairsStopAtBadChar(ws: seq<Pair>, c: char, rest: string)
    requires WellFormed(ws) && !IsCode(c) && !IsSkipped(c) && !IsNumChar(c)
    ensures Pairs(Render(ws) + [c] + rest) == (ws, true)
  {
    var s := Render(ws) + [c] + rest;
    var e := |Render(ws)|;
    assert s[0..e] == Render(ws);
    assert s[e] == c;
    RenderScans(s, 0, |Render(ws)|, ws, ' ', false);
    assert PairsFrom(s, e, LastCode(ws, ' '), false) == ([], true);
    assert ws + [] == ws;
  }

  /** After white space a code letter is expected, so there a digit stops
      the scan too. */
  lemma PairsStopAfterSpace(ws: seq<Pair>, c: char, rest: string)
    requires WellFormed(ws) && !IsCode(c) && !IsSkipped(c) && (ws != [] ==> ws[|ws| - 1].1 != "")
    ensures Pairs(Render(ws) + [' ', c] + rest) == (ws, true)
  {
    var s := Render(ws) + [' ', c] + rest;
    var e := |Render(ws)|;
    assert s[0..e] == Render(ws);
    assert s[e] == ' ' && s[e + 1] == c;
    RenderScans(s, 0, e, ws, ' ', false);
    assert SkipFrom(s, e + 1) == e + 1;
    assert SkipFrom(s, e) == e + 1;
    assert PairsFrom(s, e, LastCode(ws, ' '), false) == ([], true);
    assert ws + [] == ws;
  }

  /** Only white space left: the source reads one more pair, the last code
      with an empty text; the trimmed scan stops. */
  lemma ScanBlankEnd(s: string, e: nat, c: char, trim: bool)
    requires e < |s| && forall t :: e <= t < |s| ==> IsSkipped(s[t])
    ensures PairsFrom(s, e, c, trim) == if trim then ([], false) else ([(c, "")], false)
  {
    SkipFromBlank(s, e);
    assert SkipFrom(s, |s|) == |s| && NumberFrom(s, |s|) == |s|;
    assert PairsFrom(s, |s|, c, trim) == ([], false);
    assert s[|s|..|s|] == "";
    assert [(c, "")] + [] == [(c, "")];
  }

  /** As written: white space after the last number gives one more pair,
      the last code letter with an empty text. */
  lemma TrailingSpaceAsWritten(ws: seq<Pair>, t: string)
    requires WellFormed(ws) && ws != [] && ws[|ws| - 1].1 != ""
    requires |t| > 0 && forall k :: 0 <= k < |t| ==> IsSkipped(t[k])
    ensures Pairs(Render(ws) + t) == (ws + [(ws[|ws| - 1].0, "")], false)
  {
    var s := Render(ws) + t;
    var e := |Render(ws)|;
    assert s[0..e] == Render(ws);
    assert s[e] == t[0];
    RenderScans(s, 0, |Render(ws)|, ws, ' ', false);
    ScanBlankEnd(s, e, LastCode(ws, ' '), false);
  }

  /** Corrected: with white space at the end of the line ignored, it
      changes nothing. */
  lemma TrailingSpaceTrimmed(ws: seq<Pair>, t: string)
    requires WellFormed(ws) && (ws != [] && ws[|ws| - 1].1 == "" ==> t == "")
    requires forall k :: 0 <= k < |t| ==> IsSkipped(t[k])
    ensures PairsTrimmed(Render(ws) + t) == (ws, false)
  {
    var s := Render(ws) + t;
    var e := |Render(ws)|;
    assert s[0..e] == Render(ws);
    var rest := PairsFrom(s, e, LastCode(ws, ' '), true);
    assert rest == ([], false) by {
      if e < |s| {
        assert s[e] == t[0];
        assert forall k :: e <= k < |s| ==> IsSkipped(s[k]) by {
          forall k | e <= k < |s| ensures IsSkipped(s[k]) {
            assert s[k] == t[k - e];
          }
        }
        ScanBlankEnd(s, e, LastCode(ws, ' '), true);
      } else {
        assert SkipFrom(s, e) == e && NumberFrom(s, e) == e;
      }
    }
    assert PairsFrom(s, 0, ' ', true) == (ws + rest.0, rest.1) by {
      RenderScans(s, 0, e, ws, ' ', true);
    }
    assert ws + [] == ws;
  }

  // ---------------------------------------------------------------------------
  // Properties of the sub-commands

  /** The G and M letters among the pairs, in order. */
  function Executors(p: seq<Arg>): seq<char>
  {
    if p == [] then [] else Executors(p[..|p| - 1]) + (if IsExecutor(p[|p| - 1].0) then [p[|p| - 1].0] else [])
  }

  /** One sub-command per G or M, in order, each holding its own letter. */
  lemma {:induction false} SubsShape(p: seq<Arg>)
    ensures Subs(p).Some? ==> |Subs(p).value| == |Executors(p)|
    ensures Subs(p).Some? ==> forall k :: 0 <= k < |Subs(p).value| ==>
      Subs(p).value[k].code == Executors(p)[k] && Subs(p).value[k].code in Subs(p).value[k].args
  {
    if p != [] {
      SubsShape(p[..|p| - 1]);
    }
  }

  lemma ExecutorsSnoc(p: seq<Arg>, j: nat)
    requires j < |p|
    ensures Executors(p[..j + 1]) == Executors(p[..j]) + (if IsExecutor(p[j].0) then [p[j].0] else [])
  {
    assert p[..j + 1][..j] == p[..j];
  }

  /** A pair without a number at or after the first G or M makes std::stod
      throw. */
  lemma SubsFailsAt(p: seq<Arg>, j: nat)
    requires j < |p| && Executors(p[..j + 1]) != [] && p[j].1.None?
    ensures Subs(p).None?
  {
    SubsStep(p, j);
    ExecutorsSnoc(p, j);
    SubsShape(p[..j]);
    SubsNoneStays(p, j + 1);
  }

  /** When std::stod throws, it is at such a pair. */
  lemma {:induction false} SubsFailFound(p: seq<Arg>) returns (j: nat)
    requires Subs(p).None?
    ensures j < |p| && Executors(p[..j + 1]) != [] && p[j].1.None?
  {
    var q := p[..|p| - 1];
    var n := |p| - 1;
    assert p[..n] == q;
    if Subs(q).None? {
      j := SubsFailFound(q);
      assert p[..j + 1] == q[..j + 1];
    } else {
      j := n;
      SubsStep(p, n);
      ExecutorsSnoc(p, n);
      SubsShape(q);
    }
  }

  /** std::stod throws exactly when some pair at or after the first G or M
      has a text that does not start with a number. */
  lemma SubsFailsIff(p: seq<Arg>)
    ensures Subs(p).None? <==> exists j :: 0 <= j < |p| && Executors(p[..j + 1]) != [] && p[j].1.None?
  {
    if Subs(p).None? {
      var j := SubsFailFound(p);
    } else if exists j :: 0 <= j < |p| && Executors(p[..j + 1]) != [] && p[j].1.None? {
      var j :| 0 <= j < |p| && Executors(p[..j + 1]) != [] && p[j].1.None?;
      SubsFailsAt(p, j);
    }
  }

  lemma {:induction false} SubsWithoutExecutors(lead: seq<Arg>)
    requires forall k :: 0 <= k < |lead| ==> !IsExecutor(lead[k].0)
    ensures Subs(lead) == Some([])
  {
    if lead != [] {
      SubsWithoutExecutors(lead[..|lead| - 1]);
    }
  }

  /** Pairs before the first G or M are not read at all. */
  lemma {:induction false} SubsSkipLeading(lead: seq<Arg>, rest: seq<Arg>)
    requires forall k :: 0 <= k < |lead| ==> !IsExecutor(lead[k].0)
    ensures Subs(lead + rest) == Subs(rest)
  {
    if rest == [] {
      assert lead + rest == lead;
      SubsWithoutExecutors(lead);
    } else {
      SubsSkipLeading(lead, rest[..|rest| - 1]);
      assert (lead + rest)[..|lead + rest| - 1] == lead + rest[..|rest| - 1];
      assert (lead + rest)[|lead + rest| - 1] == rest[|rest| - 1];
    }
  }

  /** A G or M read before any sub-command opens the first one. */
  lemma StepOpens(a: Arg)
    requires IsExecutor(a.0) && a.1.Some?
    ensures SubStep(Some([]), a) == Some([Sub(a.0, map[a.0 := a.1.value])])
  {
    var none: seq<Sub> := [];
    assert none + [Sub(a.0, map[a.0 := a.1.value])] == [Sub(a.0, map[a.0 := a.1.value])];
  }

  /** Another letter is written into the open sub-command. */
  lemma StepWrites(subs: seq<Sub>, a: Arg)
    requires |subs| > 0 && !IsExecutor(a.0) && a.1.Some?
    ensures SubStep(Some(subs), a) ==
      Some(subs[..|subs| - 1] + [Sub(subs[|subs| - 1].code, subs[|subs| - 1].args[a.0 := a.1.value])])
  {
  }

  /** A later G or M is written into the open sub-command, then opens its
      own. */
  lemma StepWritesAndOpens(subs: seq<Sub>, a: Arg)
    requires |subs| > 0 && IsExecutor(a.0) && a.1.Some?
    ensures SubStep(Some(subs), a) ==
      Some(subs[..|subs| - 1] + [Sub(subs[|subs| - 1].code, subs[|subs| - 1].args[a.0 := a.1.value])] + [Sub(a.0, map[a.0 := a.1.value])])
  {
  }

  lemma SubsOpenFirst(p: seq<Arg>, c: char, v: real)
    requires |p| >= 1 && p[0] == (c, Some(v)) && IsExecutor(c)
    ensures Subs(p[..1]) == Some([Sub(c, map[c := v])])
  {
    assert p[..1][..0] == [];
    SubsStep(p, 0);
    StepOpens(p[0]);
  }

  lemma SubsWriteSecond(p: seq<Arg>, c: char, m: Block, a: char, v: real)
    requires |p| >= 2 && Subs(p[..1]) == Some([Sub(c, m)]) && p[1] == (a, Some(v)) && !IsExecutor(a)
    ensures Subs(p[..2]) == Some([Sub(c, m[a := v])])
  {
    var s1 := [Sub(c, m)];
    SubsStep(p, 1);
    StepWrites(s1, p[1]);
    assert s1[..0] + [Sub(c, m[a := v])] == [Sub(c, m[a := v])];
  }

  lemma StepOpensAfterOne(s: Sub, a: Arg)
    requires IsExecutor(a.0) && a.1.Some?
    ensures SubStep(Some([s]), a) == Some([Sub(s.code, s.args[a.0 := a.1.value]), Sub(a.0, map[a.0 := a.1.value])])
  {
    StepWritesAndOpens([s], a);
    var w := Sub(s.code, s.args[a.0 := a.1.value]);
    var o := Sub(a.0, map[a.0 := a.1.value]);
    assert [s][..0] + [w] + [o] == [w, o];
  }

  lemma SubsOpenThird(p: seq<Arg>, c: char, m: Block, d: char, v: real)
    requires |p| >= 3 && Subs(p[..2]) == Some([Sub(c, m)]) && p[2] == (d, Some(v)) && IsExecutor(d)
    ensures Subs(p[..3]) == Some([Sub(c, m[d := v]), Sub(d, map[d := v])])
  {
    SubsStep(p, 2);
    StepOpensAfterOne(Sub(c, m), p[2]);
  }

  /** As written: a later G or M is also written into the sub-command still
      open, so "G1 X10 G0 Y5" runs its first move with G0. */
  lemma OpenerOverwritten(p: seq<Arg>, v1: real, x: real, v2: real)
    requires |p| == 3 && p[0] == ('G', Some(v1)) && p[1] == ('X', Some(x)) && p[2] == ('G', Some(v2))
    ensures Subs(p) == Some([Sub('G', map['G' := v2, 'X' := x]), Sub('G', map['G' := v2])])
  {
    SubsOpenFirst(p, 'G', v1);
    SubsWriteSecond(p, 'G', map['G' := v1], 'X', x);
    SubsOpenThird(p, 'G', map['G' := v1]['X' := x], 'G', v2);
    assert p[..3] == p;
    assert map['G' := v1]['X' := x]['G' := v2] == map['G' := v2, 'X' := x];
  }

  /** Corrected: the letter that opens a new sub-command is not written into
      the one before it. */
  function SubStepFixed(prev: Option<seq<Sub>>, a: Arg): (r: Option<seq<Sub>>)
    ensures r.Some? ==> prev.Some? && |r.value| == |prev.value| + (if IsExecutor(a.0) then 1 else 0)
  {
    if prev.None? then None
    else
      var subs := prev.value;
      var c := a.0;
      if (|subs| > 0 || IsExecutor(c)) && a.1.None? then None
      else if IsExecutor(c) then Some(subs + [Sub(c, map[c := a.1.value])])
      else if |subs| > 0 then Some(subs[..|subs| - 1] + [Sub(subs[|subs| - 1].code, subs[|subs| - 1].args[c := a.1.value])])
      else Some(subs)
  }

  function SubsFixed(args: seq<Arg>): Option<seq<Sub>>
  {
    if args == [] then Some([]) else SubStepFixed(SubsFixed(args[..|args| - 1]), args[|args| - 1])
  }

  /** The numbers after the G and M letters, in order. */
  function OpenerValues(p: seq<Arg>): seq<Option<real>>
  {
    if p == [] then [] else OpenerValues(p[..|p| - 1]) + (if IsExecutor(p[|p| - 1].0) then [p[|p| - 1].1] else [])
  }

  /** Each sub-command holds its own letter, with the number given for it. */
  predicate OpenersKept(subs: seq<Sub>, values: seq<Option<real>>)
  {
    |subs| == |values| &&
    forall k :: 0 <= k < |subs| ==>
      IsExecutor(subs[k].code) && subs[k].code in subs[k].args && values[k] == Some(subs[k].args[subs[k].code])
  }

  /** Corrected: every sub-command runs with the number written after its
      own G or M. */
  lemma {:induction false} SubsFixedKeepsOpeners(p: seq<Arg>)
    ensures SubsFixed(p).Some? ==> OpenersKept(SubsFixed(p).value, OpenerValues(p))
  {
    if p != [] && SubsFixed(p).Some? {
      var q := p[..|p| - 1];
      var a := p[|p| - 1];
      SubsFixedKeepsOpeners(q);
      var prev := SubsFixed(q).value;
      var cur := SubsFixed(p).value;
      var vals := OpenerValues(q) + (if IsExecutor(a.0) then [a.1] else []);
      assert OpenerValues(p) == vals;
      forall k | 0 <= k < |cur|
        ensures IsExecutor(cur[k].code) && cur[k].code in cur[k].args && vals[k] == Some(cur[k].args[cur[k].code])
      {
        if k < |prev| {
          assert vals[k] == OpenerValues(q)[k];
          assert cur[k].code == prev[k].code;
          assert cur[k].args[cur[k].code] == prev[k].args[prev[k].code];
        }
      }
    }
  }

  /** With at most one G or M on the line, the correction changes nothing. */
  lemma {:induction false} SubsFixedAgrees(p: seq<Arg>)
    requires |Executors(p)| <= 1
    ensures SubsFixed(p) == Subs(p)
  {
    if p != [] {
      var q := p[..|p| - 1];
      assert |Executors(q)| <= |Executors(p)|;
      SubsFixedAgrees(q);
      SubsShape(q);
    }
  }

  // ---------------------------------------------------------------------------
  // Properties of a whole line

  /** The counter goes up by one each line, and the callback is given the
      number the line had before. */
  lemma ExecLineCounter(st: Interp, gcd: string)
    ensures Exec(st, gcd).0.line == st.line + 1
    ensures Exec(st, gcd).1.Answered? ==> Exec(st, gcd).1.line == st.line
  {
    if |gcd| > 0 && gcd[0] != ';' {
      var subs := Subs(Converted(Pairs(gcd).0));
      if subs.Some? {
        ExecRuns(st, gcd, subs.value);
      }
    }
  }

  /** An empty line or a comment is answered "ok comment" and touches
      nothing but the counter. */
  lemma ExecComment(st: Interp, gcd: string)
    requires |gcd| == 0 || gcd[0] == ';'
    ensures Exec(st, gcd).0 == Bumped(st)
    ensures Exec(st, gcd).1.Answered? && CallbackText(Exec(st, gcd).1) == "ok comment"
  {
    CommentText();
    assert Joined("", [Commented]) == Joined("", []) + MessageText(Commented);
  }

  /** The text in front of the replies is glued to the first of them. */
  lemma {:induction false} JoinedPrefix(prefix: string, said: seq<Message>)
    ensures Joined(prefix, said) == prefix + Joined("", said)
  {
    if said != [] {
      JoinedPrefix(prefix, said[..|said| - 1]);
    }
  }

  /** A character that cannot start a pair: the pairs before it are still
      executed, and their replies follow "err bad gcode command" with no
      separator. */
  lemma ExecBadCharGlued(st: Interp, ws: seq<Pair>, c: char, rest: string, said: seq<Message>)
    requires WellFormed(ws) && ws != [] && !IsCode(c) && !IsSkipped(c) && !IsNumChar(c)
    requires Subs(Converted(ws)).Some? && RunSubs(Bumped(st), Subs(Converted(ws)).value).1 == Some(said)
    ensures var o := Exec(st, Render(ws) + [c] + rest).1;
      o == Answered(st.line, "err bad gcode command", said) &&
      CallbackText(o) == "err bad gcode command" + Joined("", said)
  {
    var gcd := Render(ws) + [c] + rest;
    PairsStopAtBadChar(ws, c, rest);
    assert gcd[0] == ws[0].0;
    ExecRuns(st, gcd, Subs(Converted(ws)).value);
    JoinedPrefix("err bad gcode command", said);
  }

  lemma {:induction false} ExecutorFound(p: seq<Arg>, k: nat)
    requires k < |p| && IsExecutor(p[k].0)
    ensures Executors(p) != []
    decreases |p|
  {
    if k < |p| - 1 {
      ExecutorFound(p[..|p| - 1], k);
    }
  }

  /** A text that is not a number after the first G or M makes std::stod
      throw. */
  lemma SubsFailAtEnd(args: seq<Arg>, k: nat)
    requires k < |args| && IsExecutor(args[k].0) && args[|args| - 1].1.None?
    ensures Subs(args).None?
  {
    ExecutorFound(args, k);
    assert args[..|args|] == args;
    SubsFailsIff(args);
  }

  /** As written: a line with a G or M and white space after its last number
      throws std::invalid_argument, so "G1 X10 " is never executed. */
  lemma TrailingSpaceFails(st: Interp, ws: seq<Pair>, t: string, k: nat)
    requires WellFormed(ws) && k < |ws| && IsExecutor(ws[k].0) && ws[|ws| - 1].1 != ""
    requires |t| > 0 && forall i :: 0 <= i < |t| ==> IsSkipped(t[i])
    ensures Exec(st, Render(ws) + t) == (Bumped(st), StodFailed)
  {
    var gcd := Render(ws) + t;
    TrailingSpaceAsWritten(ws, t);
    var args := Converted(Pairs(gcd).0);
    assert args[|ws|] == (ws[|ws| - 1].0, None);
    assert args[k].0 == ws[k].0;
    SubsFailAtEnd(args, k);
    assert gcd[0] == ws[0].0;
    ExecStodFails(st, gcd);
  }

  /** A break requested before a line whose first sub-command is a move
      stops the line there: nothing after it runs and the callback is not
      called. */
  lemma BreakStopsLine(st: Interp, gcd: string, subs: seq<Sub>)
    requires |gcd| > 0 && gcd[0] != ';' && Subs(Converted(Pairs(gcd).0)) == Some(subs)
    requires subs != [] && subs[0].code == 'G' && (Trunc(Get(subs[0].args, 'G')) == 0 || Trunc(Get(subs[0].args, 'G')) == 1)
    requires st.machine.doBreak
    ensures Exec(st, gcd) == (GExec(Bumped(st), subs[0].args).0, BreakThrown)
  {
    ExecRuns(st, gcd, subs);
    assert subs[..0] == [];
    RunSubsStep(Bumped(st), subs, 0);
    MoveBreaks(Bumped(st), subs[0].args);
    RunSubsBrokenStays(Bumped(st), subs, 1);
  }

  // ---------------------------------------------------------------------------
  // The interpreter

  class GcdCommandsInterpreter {
    var line: int
    var g0speed: real
    var g1speed: real
    var g0speedV0: real
    var g0speedV0ddt: real
    var machine: Machine

    function Fields(): Interp
      reads this
    {
      Interp(line, g0speed, g1speed, g0speedV0, g0speedV0ddt, machine)
    }

    /** G0 speed 20 and G1 speed 5; the line counter and the V0 settings,
        which the source leaves unset, start at 0. */
    constructor(machine: Machine)
      ensures Fields() == Interp(0, 20.0, 5.0, 0.0, 0.0, machine)
    {
      line := 0;
      g0speed := 20.0;
      g1speed := 5.0;
      g0speedV0 := 0.0;
      g0speedV0ddt := 0.0;
      this.machine := machine;
    }

    method SetMachine(m: Machine)
      modifies this
      ensures Fields() == old(Fields()).(machine := m)
    {
      machine := m;
    }

    method SetLine(l: int)
      modifies this
      ensures Fields() == old(Fields()).(line := l)
    {
      line := l;
    }

    method WorkSpeed(g1: real) returns (r: real)
      modifies this
      ensures Fields() == old(Fields()).(g1speed := g1) && r == g1
    {
      g1speed := g1;
      r := g1speed;
    }

    method FastSpeed(g0: real) returns (r: real)
      modifies this
      ensures Fields() == old(Fields()).(g0speed := g0) && r == g0
    {
      g0speed := g0;
      r := g0speed;
    }

    method G0speedAcc(v0: real, v0ddt: real)
      modifies this
      ensures Fields() == old(Fields()).(v0 := v0, v0ddt := v0ddt)
    {
      g0speedV0 := v0;
      g0speedV0ddt := v0ddt;
    }

    /** breakExecution: the machine's next move throws. */
    method BreakExecution()
      modifies this
      ensures Fields() == old(Fields()).(machine := old(machine).(doBreak := true))
    {
      machine := machine.(doBreak := true);
    }

    method Finish()
      modifies this
      ensures Fields() == old(Fields()).(machine := Logged(old(machine), WaitFinish))
    {
      machine := Logged(machine, WaitFinish);
    }

    method GetPosition() returns (p: Position)
      ensures p == machine.position
    {
      p := machine.position;
    }

    /** The executor of the sub-command's letter. */
    method ExecuteSub(s: Sub) returns (reply: Reply)
      modifies this
      ensures (Fields(), reply) == ExecSub(old(Fields()), s)
    {
      var r := ExecSub(Fields(), s);
      line, g0speed, g1speed, g0speedV0, g0speedV0ddt, machine := r.0.line, r.0.g0speed, r.0.g1speed, r.0.v0, r.0.v0ddt, r.0.machine;
      reply := r.1;
    }

    /** The loop of execCommand over the sub-commands. */
    method RunSubCommands(subCommands: seq<Sub>, prefix: string) returns (said: Option<seq<Message>>, result: string)
      modifies this
      ensures (Fields(), said) == RunSubs(old(Fields()), subCommands)
      ensures said.Some? ==> result == Joined(prefix, said.value)
    {
      ghost var st1 := Fields();
      var replies: seq<Message> := [];
      result := prefix;
      for i := 0 to |subCommands|
        invariant RunSubs(st1, subCommands[..i]) == (Fields(), Some(replies))
        invariant |replies| == i && result == Joined(prefix, replies)
      {
        RunSubsStep(st1, subCommands, i);
        var r := ExecuteSub(subCommands[i]);
        if r.Broken? {
          RunSubsBrokenStays(st1, subCommands, i + 1);
          return None, result;
        }
        JoinedSnoc(prefix, replies, r.msg);
        result := result + (if i > 0 then "; " else "") + MessageText(r.msg);
        replies := replies + [r.msg];
      }
      assert subCommands[..|subCommands|] == subCommands;
      said := Some(replies);
    }

    /** The end of execCommand once the line is split: the result starts
        with the complaint about a bad code, then the sub-commands run. */
    method RunLine(ghost st0: Interp, subs: seq<Sub>, bad: bool) returns (outcome: Outcome, result: string)
      requires Fields() == Bumped(st0)
      modifies this
      ensures (Fields(), outcome) == Conclude(RunSubs(Bumped(st0), subs), BadPrefix(bad), st0.line)
      ensures outcome.Answered? ==> result == CallbackText(outcome)
    {
      var said;
      said, result := RunSubCommands(subs, BadPrefix(bad));
      if said.None? {
        return BreakThrown, result;
      }
      outcome := Answered(line - 1, BadPrefix(bad), said.value);
    }

    /** execCommand after the line counter went up, for a line that is not
        a comment: scan, split and execute. */
    method ExecLine(ghost st0: Interp, gcd: string) returns (outcome: Outcome, result: string)
      requires |gcd| > 0 && gcd[0] != ';' && Fields() == Bumped(st0)
      modifies this
      ensures (Fields(), outcome) == Exec(st0, gcd)
      ensures outcome.Answered? ==> result == CallbackText(outcome)
    {
      var commandSequence, bad := ScanPairs(gcd);
      var subs := SplitSubCommands(commandSequence);
      if subs.None? {
        ExecStodFails(st0, gcd);
        return StodFailed, if bad then "err bad gcode command" else "";
      }
      ExecRuns(st0, gcd, subs.value);
      outcome, result := RunLine(st0, subs.value, bad);
    }

    /** execCommand: the outcome, and the text passed to the callback. */
    method ExecCommand(gcd: string) returns (outcome: Outcome, result: string)
      modifies this
      ensures (Fields(), outcome) == Exec(old(Fields()), gcd)
      ensures outcome.Answered? ==> result == CallbackText(outcome)
    {
      ghost var st0 := Fields();
      line := line + 1;
      assert Fields() == Bumped(st0);
      if |gcd| == 0 || gcd[0] == ';' {
        result := "ok comment";
        ExecComment(st0, gcd);
        outcome := Answered(line - 1, "", [Commented]);
      } else {
        outcome, result := ExecLine(st0, gcd);
      }
    }
  }
}
