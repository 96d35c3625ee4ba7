/**
 * The step/direction command types sent to the stepper drivers.
 */
module SteppingCommands {

  /** A one-bit field. */
  type Bit = b: int | 0 <= b <= 1

  /** single_step_command: one step bit and one direction bit for one axis. */
  datatype SingleStep = SingleStep(step: Bit, dir: Bit)

  const Idle: SingleStep := SingleStep(0, 0)

  /** The four axis commands executed together in one tick. */
  type AxisSteps = s: seq<SingleStep> | |s| == 4 witness [Idle, Idle, Idle, Idle]

  /** multistep_command: the same four-axis command repeated `count` times. */
  datatype Multistep = Multistep(b: AxisSteps, count: int)

  /** operator== on single_step_command: compares step and dir, both fields
      of the value, so it is value equality. */
  function StepEq(a: SingleStep, c: SingleStep): (r: bool)
    ensures r <==> a == c
  {
    a.step == c.step && a.dir == c.dir
  }

  /** multistep_command_same_command: every axis command equal; `count` is
      not compared.  Two commands are the same iff their axis commands are
      identical. */
  function SameCommand(a: Multistep, c: Multistep): (r: bool)
    ensures r <==> a.b == c.b
  {
    var r := forall i :: 0 <= i < 4 ==> StepEq(a.b[i], c.b[i]);
    assert r ==> a.b == c.b by {
      if r {
        assert forall i :: 0 <= i < 4 ==> a.b[i] == c.b[i];
      }
    }
    r
  }

  /** The repeat count never takes part in the comparison. */
  lemma SameCommandIgnoresCount(a: Multistep, c: Multistep, n: int, m: int)
    ensures SameCommand(a, c) <==> SameCommand(a.(count := n), c.(count := m))
    ensures SameCommand(a, a.(count := n))
  {
  }

  /** SameCommand is an equivalence relation. */
  lemma SameCommandIsEquivalence(a: Multistep, c: Multistep, d: Multistep)
    ensures SameCommand(a, a)
    ensures SameCommand(a, c) ==> SameCommand(c, a)
    ensures SameCommand(a, c) && SameCommand(c, d) ==> SameCommand(a, d)
  {
  }
}
