/**
 * GcodeEngine: runs a G-code program through a GcdCommandsInterpreter.  The
 * program text is cut into lines at every '\n' and '\r', each line is given
 * to the interpreter in order, and the end callback receives 0 when every
 * line ran, -2 after a BreakException, -127 after any other exception (the
 * std::invalid_argument of std::stod) and -1 when a program is already
 * running.
 *
 * The two callbacks are recorded: `calls` holds every line callback
 * (line number, line, result) and `ends` every end callback.
 */
module Engine {

  import opened Common
  import opened GcdCommands

  /** One call of the line callback. */
  datatype Call = Call(line: int, command: string, result: string)

  predicate IsTerminator(c: char)
  {
    c == '\n' || c == '\r'
  }

  /** The lines a text is cut into, and the text after the last terminator. */
  datatype Cut = Cut(lines: seq<string>, pending: string)

  function CutStep(cut: Cut, c: char): Cut
  {
    if IsTerminator(c) then Cut(cut.lines + [cut.pending], "") else Cut(cut.lines, cut.pending + [c])
  }

  /** The lines of a text, read character by character; the text after the
      last terminator is kept apart and never becomes a line. */
  function Lines(text: string): (r: Cut)
    ensures NoTerminator(r.pending)
  {
    if text == [] then Cut([], "") else CutStep(Lines(text[..|text| - 1]), text[|text| - 1])
  }

  lemma LinesSnoc(text: string, c: char)
    ensures Lines(text + [c]) == CutStep(Lines(text), c)
  {
    assert (text + [c])[..|text|] == text;
  }

  lemma LinesStep(text: string, i: nat)
    requires i < |text|
    ensures Lines(text[..i + 1]) == CutStep(Lines(text[..i]), text[i])
  {
    assert text[..i + 1][..i] == text[..i];
  }

  /** Reading on never takes back a line. */
  lemma {:induction false} LinesExtend(text: string, i: nat)
    requires i <= |text|
    ensures |Lines(text[..i]).lines| <= |Lines(text).lines|
    ensures Lines(text).lines[..|Lines(text[..i]).lines|] == Lines(text[..i]).lines
    decreases |text| - i
  {
    if i < |text| {
      LinesStep(text, i);
      LinesExtend(text, i + 1);
      var a := Lines(text[..i]).lines;
      var b := Lines(text[..i + 1]).lines;
      var all := Lines(text).lines;
      assert b[..|a|] == a;
      assert all[..|b|][..|a|] == all[..|a|];
    } else {
      assert text[..i] == text;
    }
  }

  /** A program written as lines, each followed by a new line. */
  function Program(ls: seq<string>): string
  {
    if ls == [] then "" else Program(ls[..|ls| - 1]) + ls[|ls| - 1] + "\n"
  }

  predicate NoTerminator(s: string)
  {
    forall k :: 0 <= k < |s| ==> !IsTerminator(s[k])
  }

  /** Text without a terminator only grows the pending line. */
  lemma {:induction false} LinesOfPlain(prefix: string, s: string)
    requires NoTerminator(s)
    ensures Lines(prefix + s) == Cut(Lines(prefix).lines, Lines(prefix).pending + s)
    decreases |s|
  {
    if s == [] {
      assert prefix + s == prefix;
      assert Lines(prefix).pending + s == Lines(prefix).pending;
    } else {
      var t := s[..|s| - 1];
      var c := s[|s| - 1];
      assert !IsTerminator(c);
      LinesOfPlain(prefix, t);
      SnocSplit(prefix, s);
      LinesSnoc(prefix + t, c);
      assert (Lines(prefix).pending + t) + [c] == Lines(prefix).pending + s;
    }
  }

  /** A line and its new line, read after complete lines, add that line. */
  lemma LinesAfterLine(q: string, l: string)
    requires NoTerminator(l) && Lines(q).pending == ""
    ensures Lines(q + l + "\n") == Cut(Lines(q).lines + [l], "")
  {
    LinesOfPlain(q, l);
    assert "" + l == l;
    LinesSnoc(q + l, '\n');
    assert q + l + "\n" == (q + l) + ['\n'];
  }

  /** The lines of a program are read back, and text after the last new
      line is left pending. */
  lemma {:induction false} LinesOfProgram(ls: seq<string>, tail: string)
    requires forall k :: 0 <= k < |ls| ==> NoTerminator(ls[k])
    requires NoTerminator(tail)
    ensures Lines(Program(ls) + tail) == Cut(ls, tail)
    decreases |ls|
  {
    if ls == [] {
      LinesOfPlain("", tail);
      AppendEmpty(tail);
    } else {
      var init := ls[..|ls| - 1];
      var l := ls[|ls| - 1];
      var q := Program(init);
      assert Lines(q) == Cut(init, "") by {
        LinesOfProgram(init, "");
        AppendEmpty(q);
      }
      assert Lines(Program(ls)) == Cut(ls, "") by {
        LinesAfterLine(q, l);
        assert init + [l] == ls;
      }
      LinesOfPlain(Program(ls), tail);
      AppendEmpty(tail);
    }
  }

  /** How a run of lines stands: not stopped, or stopped by an exception. */
  datatype Stop = Running | StodThrew | BreakThrew

  datatype Run = Run(st: Interp, calls: seq<Call>, stop: Stop)

  /** One line: the callback when the line was answered, else the
      exception stops the run. */
  function LineStep(run: Run, line: string): Run
  {
    if run.stop != Running then run
    else
      var e := Exec(run.st, line);
      if e.1.Answered? then Run(e.0, run.calls + [Call(e.1.line, line, CallbackText(e.1))], Running)
      else if e.1.StodFailed? then Run(e.0, run.calls, StodThrew)
      else Run(e.0, run.calls, BreakThrew)
  }

  lemma LineStepExec(run: Run, line: string, st: Interp, o: Outcome)
    requires run.stop == Running && Exec(run.st, line) == (st, o)
    ensures LineStep(run, line) ==
      if o.Answered? then Run(st, run.calls + [Call(o.line, line, CallbackText(o))], Running)
      else if o.StodFailed? then Run(st, run.calls, StodThrew)
      else Run(st, run.calls, BreakThrew)
  {
  }

  /** The lines executed in order until one throws: at most one callback
      per line, and one for every line exactly when none threw. */
  function RunLines(st: Interp, lines: seq<string>): (r: Run)
    ensures |r.calls| <= |lines|
    ensures r.stop == Running <==> |r.calls| == |lines|
  {
    if lines == [] then Run(st, [], Running) else LineStep(RunLines(st, lines[..|lines| - 1]), lines[|lines| - 1])
  }

  lemma SnocSplit<T>(prefix: seq<T>, s: seq<T>)
    requires s != []
    ensures prefix + s == (prefix + s[..|s| - 1]) + [s[|s| - 1]]
  {
    assert s == s[..|s| - 1] + [s[|s| - 1]];
  }

  lemma AppendEmpty<T>(s: seq<T>)
    ensures s + [] == s && [] + s == s
  {
  }

  lemma AppendAssoc<T>(a: seq<T>, b: seq<T>, c: seq<T>)
    ensures a + (b + c) == (a + b) + c
  {
  }

  lemma RunLinesSnoc(st: Interp, lines: seq<string>, l: string)
    ensures RunLines(st, lines + [l]) == LineStep(RunLines(st, lines), l)
  {
    assert (lines + [l])[..|lines|] == lines;
  }

  lemma RunLinesStep(st: Interp, lines: seq<string>, i: nat)
    requires i < |lines|
    ensures RunLines(st, lines[..i + 1]) == LineStep(RunLines(st, lines[..i]), lines[i])
  {
    assert lines[..i + 1][..i] == lines[..i];
  }

  /** A run that has stopped ignores the next line. */
  lemma LineStepStopped(run: Run, line: string)
    requires run.stop != Running
    ensures LineStep(run, line) == run
  {
  }

  /** Once a line has thrown, no later line runs. */
  lemma {:induction false} RunLinesStopped(st: Interp, lines: seq<string>, n: nat)
    requires n <= |lines| && RunLines(st, lines[..n]).stop != Running
    ensures RunLines(st, lines) == RunLines(st, lines[..n])
    decreases |lines|
  {
    if n < |lines| {
      var init := lines[..|lines| - 1];
      assert init[..n] == lines[..n];
      RunLinesStopped(st, init, n);
      LineStepStopped(RunLines(st, init), lines[|lines| - 1]);
    } else {
      assert lines[..n] == lines;
    }
  }

  /** The callbacks come in order, one per line, numbered from the counter
      on; a run that stopped did so at the line after the last callback. */
  lemma {:induction false} RunLinesCalls(st: Interp, lines: seq<string>)
    ensures var r := RunLines(st, lines);
      |r.calls| <= |lines| && (r.stop == Running <==> |r.calls| == |lines|) &&
      r.st.line == st.line + (if r.stop == Running then |r.calls| else |r.calls| + 1) &&
      forall k :: 0 <= k < |r.calls| ==> r.calls[k].line == st.line + k && r.calls[k].command == lines[k]
  {
    if lines != [] {
      var init := lines[..|lines| - 1];
      var l := lines[|lines| - 1];
      RunLinesCalls(st, init);
      var r0 := RunLines(st, init);
      if r0.stop == Running {
        ExecLineCounter(r0.st, l);
      }
    }
  }

  /** Finish: waits for the machine. */
  function Finished(st: Interp): Interp
  {
    st.(machine := Logged(st.machine, WaitFinish))
  }

  /** How execGcodeProgram ends: the interpreter, the line callbacks and the
      code given to the end callback and returned. */
  datatype Ended = Ended(st: Interp, calls: seq<Call>, code: int)

  /** execGcodeProgram on a text: the counter starts at 0, the lines run in
      order, and the machine is waited for unless std::stod threw. */
  function ProgramRun(st: Interp, text: string): (e: Ended)
    ensures e.code == 0 || e.code == -2 || e.code == -127
    ensures e.code == 0 <==> |e.calls| == |Lines(text).lines|
  {
    ProgramOnLines(st, Lines(text).lines)
  }

  function ProgramOnLines(st: Interp, lines: seq<string>): Ended
  {
    var r := RunLines(st.(line := 0), lines);
    match r.stop
    case Running => Ended(Finished(r.st), r.calls, 0)
    case BreakThrew => Ended(Finished(r.st), r.calls, -2)
    case StodThrew => Ended(r.st, r.calls, -127)
  }

  /** The end code says how the run ended, and the callbacks are numbered
      0, 1, 2, ... with their lines. */
  lemma ProgramEnds(st: Interp, text: string)
    ensures var e := ProgramRun(st, text);
      var lines := Lines(text).lines;
      (e.code == 0 || e.code == -2 || e.code == -127) &&
      |e.calls| <= |lines| && (e.code == 0 <==> |e.calls| == |lines|) &&
      (e.code == -127 ==> e.st.machine.log == RunLines(st.(line := 0), lines).st.machine.log) &&
      (e.code != -127 ==> e.st.machine.log == RunLines(st.(line := 0), lines).st.machine.log + [WaitFinish]) &&
      forall k :: 0 <= k < |e.calls| ==> e.calls[k].line == k && e.calls[k].command == lines[k]
  {
    RunLinesCalls(st.(line := 0), Lines(text).lines);
  }

  /** Text after the last new line is never run. */
  lemma TailNeverRuns(st: Interp, ls: seq<string>, tail: string)
    requires forall k :: 0 <= k < |ls| ==> NoTerminator(ls[k])
    requires NoTerminator(tail)
    ensures ProgramRun(st, Program(ls) + tail) == ProgramRun(st, Program(ls))
  {
    LinesOfProgram(ls, tail);
    LinesOfProgram(ls, "");
    AppendEmpty(Program(ls));
    assert Lines(Program(ls) + tail).lines == Lines(Program(ls)).lines;
  }

  class GcodeEngine {
    var running: bool
    var calls: seq<Call>
    var ends: seq<int>
    const gcd: GcdCommandsInterpreter

    /** setupGcdCommandsInterpreter: an interpreter on the machine with the
        configured speeds; no program is running. */
    constructor(machine: Machine, g0speed: real, g1speed: real, g0speedV0: real, g0speedV0ddt: real)
      ensures fresh(gcd) && !running && calls == [] && ends == []
      ensures gcd.Fields() == Interp(0, g0speed, g1speed, g0speedV0, g0speedV0ddt, machine)
    {
      var g := new GcdCommandsInterpreter(machine);
      var _ := g.FastSpeed(g0speed);
      var _ := g.WorkSpeed(g1speed);
      g.G0speedAcc(g0speedV0, g0speedV0ddt);
      gcd := g;
      running := false;
      calls := [];
      ends := [];
    }

    method SetLine(l: int)
      modifies gcd
      ensures gcd.Fields() == old(gcd.Fields()).(line := l)
    {
      gcd.SetLine(l);
    }

    method Finish()
      modifies gcd
      ensures gcd.Fields() == Finished(old(gcd.Fields()))
    {
      gcd.Finish();
    }

    method BreakExecution()
      modifies gcd
      ensures gcd.Fields() == old(gcd.Fields()).(machine := old(gcd.machine).(doBreak := true))
    {
      gcd.BreakExecution();
    }

    method IsGcodeProgramRunning() returns (r: bool)
      ensures r == running
    {
      r := running;
    }

    method GetPosition() returns (p: Position)
      ensures p == gcd.machine.position
    {
      p := gcd.GetPosition();
    }

    /** execCommand: one line, its callback when it is answered. */
    method ExecCommand(command: string) returns (outcome: Outcome)
      modifies this, gcd
      ensures (gcd.Fields(), outcome) == Exec(old(gcd.Fields()), command)
      ensures calls == old(calls) + if outcome.Answered? then [Call(outcome.line, command, CallbackText(outcome))] else []
      ensures running == old(running) && ends == old(ends)
    {
      var result;
      outcome, result := gcd.ExecCommand(command);
      if outcome.Answered? {
        calls := calls + [Call(outcome.line, command, result)];
      }
    }

    /** The character loop of execGcodeProgram: every terminator runs the
        line read so far, until a line throws. */
    method RunProgramLines(text: string) returns (stop: Stop)
      modifies this, gcd
      ensures var r := RunLines(old(gcd.Fields()), Lines(text).lines);
        stop == r.stop && gcd.Fields() == r.st && calls == old(calls) + r.calls
      ensures ends == old(ends) && running == old(running)
    {
      ghost var st0 := gcd.Fields();
      ghost var calls0 := calls;
      ghost var run := Run(st0, [], Running);
      var line := "";
      var i := 0;
      while i < |text|
        invariant 0 <= i <= |text|
        invariant line == Lines(text[..i]).pending
        invariant run == RunLines(st0, Lines(text[..i]).lines)
        invariant run.stop == Running && run.st == gcd.Fields() && calls == calls0 + run.calls
        invariant ends == old(ends) && running == old(running)
      {
        LinesStep(text, i);
        var c := text[i];
        if !IsTerminator(c) {
          line := line + [c];
        } else {
          ghost var before := Lines(text[..i]).lines;
          assert Lines(text[..i + 1]).lines == before + [line];
          RunLinesSnoc(st0, before, line);
          var outcome := ExecCommand(line);
          LineStepExec(run, line, gcd.Fields(), outcome);
          if !outcome.Answered? {
            LinesExtend(text, i + 1);
            RunLinesStopped(st0, Lines(text).lines, |before| + 1);
            assert calls == calls0 + run.calls;
            return if outcome.StodFailed? then StodThrew else BreakThrew;
          }
          AppendAssoc(calls0, run.calls, [Call(outcome.line, line, CallbackText(outcome))]);
          run := LineStep(run, line);
          line := "";
        }
        i := i + 1;
      }
      assert text[..|text|] == text;
      stop := Running;
    }

    /** execGcodeProgram: refused while a program runs; otherwise the lines
        run in order and the end callback gets how it ended. */
    method ExecGcodeProgram(text: string) returns (code: int)
      modifies this, gcd
      ensures old(running) ==>
        code == -1 && ends == old(ends) + [-1] && calls == old(calls) && running && gcd.Fields() == old(gcd.Fields())
      ensures !old(running) ==> var e := ProgramRun(old(gcd.Fields()), text);
        code == e.code && ends == old(ends) + [e.code] && calls == old(calls) + e.calls &&
        !running && gcd.Fields() == e.st
    {
      if running {
        ends := ends + [-1];
        return -1;
      }
      gcd.SetLine(0);
      var stop := RunProgramLines(text);
      if stop == Running {
        gcd.Finish();
        code := 0;
      } else if stop == BreakThrew {
        gcd.Finish();
        code := -2;
      } else {
        code := -127;
      }
      ends := ends + [code];
      running := false;
    }
  }
}
