# raspigcd core in Dafny

This project models the core of raspigcd, a G-code interpreter that drives
stepper motors on a Raspberry Pi. The model covers these parts:

- **Step vectors.** `generic_position_t<int,4>` (steps_t) and `tp::motor::Steps`,
  with their operators.
- **Stepping commands.** The step/direction commands sent to the drivers, and their
  expansion into tick-by-tick positions (`hardware_commands_to_steps` and its neighbours).
- **Turning motion into ticks.** `collapse_repeated_steps` and `chase_steps` in
  `simple_steps.cpp`, and the steps analyzer.
- **Executors.** The simulated executor (`stepping_sim`) and the timer executor
  (`stepping_simple_timer`), including their terminate and slow-down protocol.
- **Drivers.** The in-memory driver and the fake buttons driver.
- **The queue.** The fixed-size ring buffer `SafeQueue`.
- **The G-code front end.**
  - `command_to_map_of_arguments` and `gcode_to_maps_of_arguments`;
  - `merge_blocks`, `diff_blocks` and `last_state`;
  - `remove_duplicate_blocks` and `group_gcode_commands`;
  - `remove_g92_from_gcode`.
- **The line interpreter and the engine.** `GcdCommandsInterpreter`, which parses one
  line into G/M sub-commands and runs them against a machine, and `GcodeEngine`, which
  runs a whole program line by line and stops on a break.

Each C++ file has its own Dafny module:

- Pure value code (operators, the G-code block transformations, the parsers) becomes
  datatypes, functions and lemmas.
- Code that loops or updates objects becomes methods and classes, proved against
  specification functions. Examples: the step-vector operators, the executors, the
  queue, the drivers, the interpreter and the engine.

Three modelling conventions run through the project:

- **Numbers.** Numbers are unbounded `int` and `real`. The C++ conversions that matter
  are written out: `(int)` truncation (`Common.Trunc`), int division toward zero
  (`Common.CDiv`), `std::stod` (`Common.StodWhole`, `Common.StodPrefix`) and
  `std::to_string`.
- **Hardware.** Hardware, threads and callbacks are replaced by values:
  - each driver call is recorded in a log;
  - "terminate" requests and break-callback answers are scripted maps from tick index to value;
  - the timer is the list of delays it would wait.
- **Streams.** A program given as a stream is modelled by its text.

## Model

| member | source | states |
|---|---|---|
| Common.Trunc | src/gcd/remove_g92_from_gcode.cpp:37 | `(int)x` truncates toward zero: the result is less than 1 away from x and never farther from zero than x |
| Common.TruncNeg | src/gcd/remove_g92_from_gcode.cpp:37 | the cast is symmetric: (int)(-x) == -(int)x, which floor is not |
| Common.TruncOfInt | src/gcd/remove_g92_from_gcode.cpp:37-38 | a value that is already whole survives the cast unchanged |
| Common.CDiv | src/dto_Steps.hpp:39-46 | C++ int division: the magnitude is the quotient of the magnitudes, and the sign is positive only for operands of equal sign |
| Common.CDivIsNotEuclidean | src/dto_Steps.hpp:39-42 | -7 / 2 is -3 in C++ and -4 in Euclidean division |
| Common.CDivNeg | src/dto_Steps.hpp:39-42 | negating the dividend negates the quotient |
| Common.CDivExact | src/dto_Steps.hpp:39-42 | a multiple of b divided by b is exact |
| Common.ScanDecimal | src/gcd/gcode_interpreter.cpp:659-661 | the longest decimal number strtod reads from the text: it reads at least one digit, always reads text that starts with a digit, and fails on text without digits |
| Common.StodWhole | src/gcd/gcode_interpreter.cpp:659-661 | `stod` followed by the comparison of the read length with the text length: a value exists exactly when strtod reads the whole text, that value is the one strtod read, and only text holding a digit has one |
| Common.Pow10 | src/gcd/gcode_interpreter.cpp:659-661 | a power of ten is at least 1 |
| Common.Pow10Add | src/gcd/gcode_interpreter.cpp:659-661 | 10^(a+b) == 10^a · 10^b |
| Common.ScaledValue | src/gcd/gcode_interpreter.cpp:659-661 | digits read after the point are worth n / 10^k |
| Common.ScanUnsigned | src/gcd/gcode_interpreter.cpp:659-661 | the unsigned number read from a position ends after it, holds a digit, and is always read when a digit stands there |
| Common.ScanUnsignedStops | src/gcd/gcode_interpreter.cpp:659-661 | the unsigned number read is the longest: no digit follows it, and a '.' follows only when it already holds one |
| Common.ScanDecimalStops | src/gcd/gcode_interpreter.cpp:659-661 | strtod reads the longest numeric prefix: no digit follows it, and a '.' follows only when the prefix already holds one |
| Common.ScanUnsignedWhole | src/gcd/gcode_interpreter.cpp:659-661 | a run of digits followed by neither a digit nor a '.' is read as its value, up to its end |
| Common.ScanUnsignedFraction | src/gcd/gcode_interpreter.cpp:659-661 | digits, a '.', and digits not followed by a digit are read as the whole part plus the fraction, up to the end of the second run |
| Common.ScanDecimalMinus | src/gcd/gcode_interpreter.cpp:659-661 | after a leading minus sign the magnitude is read and negated, ending at the same place |
| Common.ScanNatural | src/gcd/gcode_interpreter.cpp:659-661 | the decimal text of a natural number, followed by anything but a digit or a '.', reads back as that number over exactly its digits |
| Common.ScanNegativeNatural | src/gcd/gcode_interpreter.cpp:659-661 | a minus sign and the digits of m read back as -m over the sign and the digits |
| Common.ScanInt | src/gcd/gcode_interpreter.cpp:659-661 | to_string of any int, followed by anything but a digit or a '.', reads back as that int |
| Common.ScanFraction | src/gcd/gcode_interpreter.cpp:659-661 | a.d followed by a non-digit reads back as a + d / 10^\|d\| over exactly a.d |
| Common.ScanNegativeFraction | src/gcd/gcode_interpreter.cpp:659-661 | -a.d followed by a non-digit reads back as -(a + d / 10^\|d\|) |
| Common.StodWholeInt | src/gcd/gcode_interpreter.cpp:659-661 | the whole-text stod of to_string(n) is n |
| Common.StodWholeDecimal | src/gcd/gcode_interpreter.cpp:659-661 | the whole-text stod of a.d is a + d / 10^\|d\| |
| Common.StodWholeNegativeDecimal | src/gcd/gcode_interpreter.cpp:659-661 | the whole-text stod of -a.d is -(a + d / 10^\|d\|) |
| Common.StodPrefix | src/gcd_commands.cpp:96-98 | `stod` without the length check: it succeeds exactly when a number prefix can be read |
| Common.NatToStringValue | src/gcd_commands.cpp:254 | reading back the decimal digits of a number gives the number (to_string is faithful) |
| Common.IntToString | src/gcd_commands.cpp:254 | to_string of an int is never empty; for n >= 0 it is all digits worth n, for n < 0 a minus sign followed by digits worth -n |
| Common.RoundHalfEven | src/gcd_commands.cpp:248 | rounds to a whole number at most one half away, strictly less than one half unless x lies halfway, and then to the even neighbour |
| Common.FixedSix | src/gcd_commands.cpp:248 | to_string of a double: at least one digit, the point and six decimals |
| DistanceT.Fit | include/distance_t.hpp:67-72 | each of the four components is the vector's value at that index, or 0 past its end |
| DistanceT.Default | include/distance_t.hpp:55-57 | the default constructor gives the zero vector |
| DistanceT.FromList | include/distance_t.hpp:58-66 | the initializer list throws exactly when it has more than four values; otherwise the values fill the leading components in order and the rest are 0 |
| DistanceT.FromVector | include/distance_t.hpp:67-72 | the vector constructor copies the first min(size, 4) values and zero-fills the rest |
| DistanceT.Add | include/distance_t.hpp:121-128 | the loop computes the component-wise sum |
| DistanceT.Sub | include/distance_t.hpp:131-138 | the loop computes the component-wise difference |
| DistanceT.Mul | include/distance_t.hpp:141-148 | the loop computes the component-wise product |
| DistanceT.Equal | include/distance_t.hpp:203-208 | the and-accumulating loop is true iff every component agrees, i.e. iff the vectors are equal |
| DistanceT.Sumv | include/distance_t.hpp:346-350 | sumv is the sum of the four components |
| DistanceT.SubUndoesAdd | include/distance_t.hpp:121-138 | (a + b) - b == a |
| DistanceT.AddCommutes | include/distance_t.hpp:121-128 | a + b == b + a |
| DistanceT.AddAssociates | include/distance_t.hpp:121-128 | (a + b) + c == a + (b + c) |
| DistanceT.ZeroIsNeutral | include/distance_t.hpp:55-138 | the default vector is the unit of + and - |
| DistanceT.MulCommutes | include/distance_t.hpp:141-148 | a * b == b * a |
| DistanceT.SumPrefixAdd | include/distance_t.hpp:346-350 | every partial sum of a + b is the partial sum of a plus that of b |
| DistanceT.SumAdd | include/distance_t.hpp:346-350 | sumv(a + b) == sumv(a) + sumv(b) |
| DistanceT.SumIsFourTerms | include/distance_t.hpp:346-350 | sumv is a[0] + a[1] + a[2] + a[3] |
| DistanceT.FitOfFour | include/distance_t.hpp:67-72 | the vector constructor applied to four values is the identity |
| DtoSteps.DefaultIsNeutral | src/dto_Steps.hpp:13-30 | the default Steps is the unit of + and the right unit of - |
| DtoSteps.PlusMinusInverse | src/dto_Steps.hpp:23-30 | - undoes + and + undoes - |
| DtoSteps.PlusCommutes | src/dto_Steps.hpp:23-26 | a + b == b + a |
| DtoSteps.ScaleIsTimesConstant | src/dto_Steps.hpp:31-38 | s * k equals s * Steps(k, k, k, k) |
| DtoSteps.ScaleDistributes | src/dto_Steps.hpp:23-38 | (a + b) * k == a * k + b * k |
| DtoSteps.DivUndoesScale | src/dto_Steps.hpp:35-42 | (a * k) / k == a for k != 0 |
| DtoSteps.DivTruncatesTowardZero | src/dto_Steps.hpp:39-42 | division commutes with negation, and (-7,7,-1,1) / 2 is (-3,3,0,0) |
| DtoSteps.DivStepsByConstant | src/dto_Steps.hpp:39-46 | dividing by Steps(k,k,k,k) is dividing by k |
| DtoSteps.Plus | src/dto_Steps.hpp:23-26 | each axis of a + b is the sum of the axes; subtracting either operand gives the other back |
| DtoSteps.Minus | src/dto_Steps.hpp:27-30 | each axis of a - b is the difference of the axes; the result is the zero vector exactly when a == b |
| DtoSteps.Times | src/dto_Steps.hpp:31-34 | each axis of a * b is the product of the axes; (1,1,1,1) is the unit and the zero vector absorbs |
| DtoSteps.Scale | src/dto_Steps.hpp:35-38 | each axis of s * k is the axis times k; k == 1 changes nothing, k == 0 gives the zero vector |
| DtoSteps.DivInt | src/dto_Steps.hpp:39-42 | each axis of s / k has magnitude \|axis\| / \|k\| and is negative only for opposite signs (truncation toward zero) |
| DtoSteps.DivSteps | src/dto_Steps.hpp:43-46 | each axis of a / b is the truncating quotient of the axes, as for DivInt |
| DtoSteps.Len2 | src/dto_Steps.hpp:47-50 | len2 is at least the square of every axis, and 0 exactly for the zero vector |
| DtoSteps.Len2Sel | src/dto_Steps.hpp:51-54 | a selection lies between 0 and len2; all axes give len2, none gives 0; a selected non-zero x axis makes it positive |
| SteppingCommands.StepEq | include/hardware/stepping_commands.hpp:44-47 | operator== on single step commands is value equality of step and dir |
| SteppingCommands.SameCommand | include/hardware/stepping_commands.hpp:52-55 | two multistep commands are the same iff their four axis commands are equal |
| SteppingCommands.SameCommandIgnoresCount | include/hardware/stepping_commands.hpp:49-55 | the repeat count never takes part in the comparison |
| SteppingCommands.SameCommandIsEquivalence | include/hardware/stepping_commands.hpp:49-55 | same_command is reflexive, symmetric and transitive |
| Ticks.AxisDelta | src/hardware/stepping.cpp:49 | an axis command moves by 0 without a step bit, and with one by +1 when dir is 1 and -1 when dir is 0 |
| Ticks.Repeat | src/hardware/stepping.cpp:47 | `for (i = 0; i < count; i++)` runs count times, or not at all for a count <= 0 |
| Ticks.Expand | src/hardware/stepping.cpp:46-47 | a command list has one tick per repetition: its tick count, negative counts contributing none |
| Ticks.Trace | src/hardware/stepping.cpp:42-54 | one position per tick |
| Ticks.ExpandAppend | src/hardware/stepping.cpp:46-52 | the ticks of two command lists in a row are the ticks of the first followed by those of the second |
| Ticks.TickCountAppend | src/hardware/stepping.cpp:46-47 | tick counts add up over concatenation |
| Ticks.TickCountIsCountSum | src/movement/steps_analyzer.cpp:58-67 | with no negative counts the number of ticks is the plain sum of the counts |
| Ticks.FinalAppend | src/hardware/stepping.cpp:46-52 | replaying two tick lists in a row ends where replaying the second from the end of the first ends |
| Ticks.TraceIsPrefixFinals | src/hardware/stepping.cpp:42-54 | the k-th position listed is the position after the first k+1 ticks |
| Ticks.TracePrefix | src/hardware/stepping.cpp:42-54 | the positions of a prefix of the ticks are a prefix of the positions |
| Ticks.FinalShift | src/hardware/stepping.cpp:104 | starting from p + q instead of p moves every reached position by q (why `steps + start_steps` is right) |
| Ticks.TraceStepwise | src/hardware/stepping.cpp:48-50 | each position listed is the previous one, or the origin, moved by one tick |
| Ticks.FinalSnoc | src/hardware/stepping.cpp:48-50 | one more tick moves the end position once and appends it to the positions |
| Ticks.ExpandAt | src/hardware/stepping.cpp:46-47 | tick number TickCount(cs[..j]) + i is the i-th repetition of command j |
| Ticks.TickCountMono | src/hardware/stepping.cpp:46-47 | a longer prefix of the commands never has fewer ticks |
| SimpleSteps.RemainingPrefixIsMax | src/movement/simple_steps.cpp:38-40 | after k axes the accumulated value bounds every axis distance seen and equals one of them |
| SimpleSteps.Remaining | src/movement/simple_steps.cpp:35-42 | the number of ticks needed is the largest axis distance: it bounds every axis distance and is attained by one |
| SimpleSteps.StepsRemaining | src/movement/simple_steps.cpp:35-42 | the max-accumulating loop computes that distance, which is 0 exactly when the positions are equal |
| SimpleSteps.MergeInto | src/movement/simple_steps.cpp:56-63 | a command is appended unless it equals the last run and that run is not over the cap 0x0fffffff, in which case its count is added to the run |
| SimpleSteps.PushMergedExpand | src/movement/simple_steps.cpp:56-63 | merging never changes the ticks: the pushed command's ticks follow those already there |
| SimpleSteps.PushMergedPositive | src/movement/simple_steps.cpp:55-63 | merging a positive count keeps every count positive |
| SimpleSteps.PushMergedMaximal | src/movement/simple_steps.cpp:56-63 | merging keeps the runs maximal: two neighbours are different commands or the first is over the cap |
| SimpleSteps.PushMergedCountSum | src/movement/simple_steps.cpp:56-63 | merging adds the pushed count to the sum of counts |
| SimpleSteps.PushAllExpand | src/movement/simple_steps.cpp:54-66 | merging a list of commands appends exactly their ticks |
| SimpleSteps.PushAllKeepsPrefix | src/movement/simple_steps.cpp:54-66 | merging never touches the runs before the last one; the last keeps its command and its count only grows, and it changes only when the first pushed command equals it and it is within the cap |
| SimpleSteps.CollapseRepeatedSteps | src/movement/simple_steps.cpp:46-69 | the loop returns the collapsed list: the same ticks in the same order, only positive counts, maximal runs, as many ticks as the input, and nothing for no input |
| SimpleSteps.CollapsedProperties | src/movement/simple_steps.cpp:46-69 | collapsing keeps the ticks and their order, leaves positive counts and maximal runs, and keeps the number of ticks |
| SimpleSteps.TickPosCloser | src/movement/simple_steps.cpp:85-101 | one tick brings the largest distance over the first k axes down by one, or keeps it at 0 |
| SimpleSteps.AxisTickCloser | src/movement/simple_steps.cpp:88-100 | one axis of a tick comes one step closer to its destination unless it is already there |
| SimpleSteps.TickPosDecreases | src/movement/simple_steps.cpp:85-101 | away from the destination, a tick decreases the number of remaining ticks by exactly one |
| SimpleSteps.TickCmdMoves | src/movement/simple_steps.cpp:85-101 | replaying the command of a tick moves the position exactly as the loop moved `steps` |
| SimpleSteps.TickCmdAtRest | src/movement/simple_steps.cpp:98-100 | at the destination a tick clears every step bit and keeps the direction bits |
| SimpleSteps.Tick | src/movement/simple_steps.cpp:83-101 | one pass of the axis loop computes the next position and command, and did_mod is set exactly when the position was not yet the destination |
| SimpleSteps.ChaseSteps | src/movement/simple_steps.cpp:74-120 | the do-while loop leaves in ret exactly the merged result of the generated ticks, or one idle tick when nothing moved |
| SimpleSteps.ChaseTicksReach | src/movement/simple_steps.cpp:82-117 | the generated ticks end exactly at the destination |
| SimpleSteps.ChaseTicksLength | src/movement/simple_steps.cpp:82-117 | there are as many generated ticks as the largest axis distance |
| SimpleSteps.ChaseTicksToward | src/movement/simple_steps.cpp:88-101 | each generated tick steps every axis that is not yet there toward the destination, and steps no other axis |
| SimpleSteps.ChaseStepsMeaning | src/movement/simple_steps.cpp:74-120 | chase_steps appends ticks that lead from start to destination (the largest axis distance of them, or one idle tick when start is the destination, line 118), without changing the ticks already in ret |
| SimpleSteps.ChaseKeepsPrefix | src/movement/simple_steps.cpp:105-115 | chase_steps leaves the earlier runs of ret alone; the last run keeps its command and grows only by merging the first new tick into it |
| Stepping.Cut | src/hardware/stepping.cpp:59-69 | the number of ticks replayed for a cut-off k: k when 0 <= k <= total, every tick when k is negative or beyond the end |
| Stepping.AdvanceTick | src/hardware/stepping.cpp:48-49 | the axis loop moves the position by exactly one tick |
| Stepping.HardwareCommandsToSteps | src/hardware/stepping.cpp:42-54 | one position per tick, starting from zero, each the previous one moved by that tick: the trace of the expanded commands |
| Stepping.LastPositionAfter | src/hardware/stepping.cpp:56-70 | the position after the first Cut(k, total) ticks |
| Stepping.LastPositionMeaning | src/hardware/stepping.cpp:56-70 | that position is zero for k = 0, element k-1 of hardware_commands_to_steps for 1 <= k <= total, and the final position otherwise |
| Stepping.PositionInCommandAt | src/hardware/stepping.cpp:75-79 | tick TickCount(cs[..j]) + i is repetition i of its command |
| Stepping.StepsCountAsWritten | src/hardware/stepping.cpp:72-82 | as written: for a cut-off inside the ticks the result is the repetition index within the current command (line 77 returns `i`), otherwise the number of ticks |
| Stepping.StepsCount | src/hardware/stepping.cpp:72-82 | corrected: the number of ticks replayed up to the cut-off, Cut(k, total) |
| Stepping.StepsCountCutOffDiffers | src/hardware/stepping.cpp:77 | two commands of two ticks cut off at 3: three ticks were counted but the as-written result is 1 |
| SimExecutor.SimAfter | src/hardware/stepping.cpp:92-107 | after t passes no more than t ticks were executed, and exactly t while the run has not stopped |
| SimExecutor.SteppingSim.constructor | include/hardware/stepping.hpp:109-114 | the start position is stored; counters start at 0 and nothing has been stepped |
| SimExecutor.SteppingSim.Terminate | include/hardware/stepping.hpp:104-106 | terminate(n) unconditionally sets the pending counter to 1 + n |
| SimExecutor.SteppingSim.ResetAfterTerminate | include/hardware/stepping.hpp:107 | the pending counter is cleared |
| SimExecutor.SteppingSim.Exec | src/hardware/stepping.cpp:86-108 | exec completes iff the scripted run does not stop; it stops with empty steps; the tick index and counter are the run's; current_steps is the start plus the position after the executed ticks; the step callback saw exactly the trace of those ticks and the break callback exactly the run's break ticks |
| SimExecutor.ReplayedPrefix | src/hardware/stepping.cpp:92-104 | the first k positions of the replay are the trace of the first k ticks, and `steps + start_steps` after k ticks is the start moved by them |
| SimExecutor.SimStoppedStays | src/hardware/stepping.cpp:98 | a run that threw stays stopped: later states are the same |
| SimExecutor.SimIdle | src/hardware/stepping.cpp:93 | with nothing pending and no request, every tick is executed and nothing else changes |
| SimExecutor.SimCountdown | src/hardware/stepping.cpp:100-102 | a pending counter m >= 1 counts down to 1 over m - 1 ticks |
| SimExecutor.SimNoTermination | src/hardware/stepping.cpp:92-107 | without terminate requests every tick is executed and the break callback is never asked |
| SimExecutor.SimReachBreak | src/hardware/stepping.cpp:93-103 | terminate(n) during tick k leaves the counter at 1 after tick k + n |
| SimExecutor.SimTerminate | src/hardware/stepping.cpp:93-103 | terminate(n) during tick k asks the break callback exactly once, before tick k + 1 + n; a 0 answer stops the run there, any other lets every remaining tick run |
| SimExecutor.SimTerminateAtSecondTick | tests/hardware/stepping_test.cpp:152-206 | 40 ticks, terminate() during the second tick and the default callback: the run stops with tick index 2 |
| TimerExecutor.TimerAfter | src/hardware/stepping.cpp:138-170 | after t passes no more than t ticks were executed, and exactly t while the run has not stopped |
| TimerExecutor.SteppingTimer.constructor | include/hardware/stepping.hpp:165-170 | the delay and the driver are stored; counters start at 0 and nothing has been waited for |
| TimerExecutor.SteppingTimer.SetDelayMicroseconds | src/hardware/stepping.cpp:110-113 | the delay is replaced |
| TimerExecutor.SteppingTimer.Terminate | include/hardware/stepping.hpp:159-161 | terminate(n) sets the pending counter to 1 + n only when no termination is pending, and otherwise leaves it |
| TimerExecutor.SteppingTimer.ResetAfterTerminate | include/hardware/stepping.hpp:162 | the pending counter is cleared |
| TimerExecutor.SteppingTimer.Exec | src/hardware/stepping.cpp:128-171 | exec completes iff the scripted run does not stop; an exception carries the position after the executed ticks; the tick index, counter, waits and break-callback arguments are the run's; the steps counter grows by the X/Y/Z step bits of the executed ticks; the driver moved through exactly their trace and its counters kept their offset to its position |
| TimerExecutor.TimerAfterNext | src/hardware/stepping.cpp:139-168 | a pass that does not stop is the check followed by the tick |
| TimerExecutor.TimerAfterStop | src/hardware/stepping.cpp:157-159 | a pass whose check throws leaves the state of the check, stopped |
| TimerExecutor.TimerStoppedStays | src/hardware/stepping.cpp:157-159 | a run that threw stays stopped |
| TimerExecutor.TimerIdle | src/hardware/stepping.cpp:140 | without terminate requests every tick waits delay·1000/1000 and nothing else changes |
| TimerExecutor.TimerNoTermination | src/hardware/stepping.cpp:138-170 | without terminate requests every tick is executed, the break callback is never asked and every wait is the plain delay |
| TimerExecutor.TimerScenarioStep | src/hardware/stepping.cpp:140-168 | after terminate(n) during tick k, each pass moves the closed-form slow-down state one tick on and throws only where the break callback answers 0 |
| TimerExecutor.TimerScenarioHolds | src/hardware/stepping.cpp:140-168 | the state follows the closed form: the factor counts up by one per tick to 1000 + n before tick k + 1 + n, and after a non-zero answer falls back by one per tick to 1000 and the state is cleared |
| TimerExecutor.TimerScenarioStops | src/hardware/stepping.cpp:151-159 | a 0 answer before tick k + 1 + n throws there, after k + 1 + n ticks |
| TimerExecutor.TimerTerminate | src/hardware/stepping.cpp:138-170 | terminate(n) during tick k asks the break callback exactly once, before tick k + 1 + n; a 0 answer stops there and any other runs every tick; the waits are the slow-down then ramp-up profile |
| TimerExecutor.TimerTerminateSixteen | tests/hardware/stepping_simple_timer_test.cpp:297-335 | forty one-tick commands, terminate(16) during the second tick and the default callback: exec throws after 18 ticks |
| TimerExecutor.TimerTerminateFiveStops | tests/hardware/stepping_test.cpp:430-478 | at 1000 µs with terminate(5) during the second tick: seven ticks, waiting 1000, 1000, 1001 … 1005 |
| TimerExecutor.TimerTerminateFiveResumes | tests/hardware/stepping_test.cpp:482-535 | the same with a callback answering 1: all forty ticks, the waits rising to 1005 and falling back to 1000 |
| InMemDriver.InMem.constructor | src/hardware/driver/inmem.cpp:62-72 | position and counters start at zero, nothing is logged, and `enabled` is empty because `std::vector<bool>(false, counters.size())` has its arguments swapped |
| InMemDriver.InMem.DoStep | src/hardware/driver/inmem.cpp:43-53 | each counter with a step bit moves by dir·2-1; the position moves by one tick; the step callback receives the new position once; nothing else changes |
| InMemDriver.InMem.EnableSteppers | src/hardware/driver/inmem.cpp:55-59 | the flags are stored and forwarded to the callback; counters and position are untouched |
| InMemDriver.CountersTrackPosition | src/hardware/driver/inmem.cpp:45-51 | the counters and the position move alike: their difference is the same before and after every tick |
| InMemDriver.CountersOnlyOnStep | src/hardware/driver/inmem.cpp:45-49 | a counter changes only on a step bit, and then by exactly ±1 |
| StepsAnalyzer.FinalRepeat | src/movement/steps_analyzer.cpp:47-48 | n repetitions of one tick move the position by n times its delta |
| StepsAnalyzer.DisplacementIsFinal | src/movement/steps_analyzer.cpp:39-52 | with no negative counts, summing count·delta command by command reaches the replayed final position |
| StepsAnalyzer.LinearInCommand | src/movement/steps_analyzer.cpp:41-45 | inside command j the position after d of its repetitions is the position before it plus d times its delta |
| StepsAnalyzer.TickInCommand | src/movement/steps_analyzer.cpp:41-45 | the early return for a tick inside command j gives the replayed position after that many ticks |
| StepsAnalyzer.DisplacementStep | src/movement/steps_analyzer.cpp:47-51 | one loop pass adds count·delta to the position and count to the tick index |
| StepsAnalyzer.AddScaled | src/movement/steps_analyzer.cpp:43-48 | the axis loop moves every axis by n·step·(2·dir-1) |
| StepsAnalyzer.StepsFromTick | src/movement/steps_analyzer.cpp:33-56 | for commands without negative counts: the replayed position after the first t ticks for 0 <= t <= total, out_of_range otherwise; zero at t = 0 and the final position at the last tick |
| StepsAnalyzer.LastTickIndex | src/movement/steps_analyzer.cpp:58-67 | the sum of all counts, which is the number of ticks when no count is negative |
| ButtonsFake.LowButtonsFake.constructor | include/hardware/driver/low_buttons_fake.hpp:71-76 | max_supported_keys keys (none for a negative number), each in state 0 with the no-op callback |
| ButtonsFake.LowButtonsFake.SetOnKey | include/hardware/driver/low_buttons_fake.hpp:40-44 | the callback is installed at a key in range; a key out of range is silently ignored; states are untouched |
| ButtonsFake.LowButtonsFake.OnKey | include/hardware/driver/low_buttons_fake.hpp:49-51 | the callback of a key in range, and out_of_range (None) exactly for the other keys |
| ButtonsFake.LowButtonsFake.KeysState | include/hardware/driver/low_buttons_fake.hpp:56-58 | the state of every key |
| ButtonsFake.LowButtonsFake.TriggerButton | include/hardware/driver/low_buttons_fake.hpp:66-70 | for a key in range the state is set to v and its callback is called once with (n, v); otherwise `at` throws, before any change |
| ButtonsFake.LowButtonsFake.TriggerButtonDown | include/hardware/driver/low_buttons_fake.hpp:60-62 | trigger_button with value 1 |
| ButtonsFake.LowButtonsFake.TriggerButtonUp | include/hardware/driver/low_buttons_fake.hpp:63-65 | trigger_button with value 0 |
| ButtonsFake.DownUp | include/hardware/driver/low_buttons_fake.hpp:60-70 | down then up on a key leaves its state 0, calls its callback with 1 and then 0, and leaves every other key as it was |
| SafeQueue.Count | src/s_SafeQueue.hpp:23 | (maxSize + head - tail) mod maxSize is the number of stored elements: fewer than maxSize, with head that many slots after tail |
| SafeQueue.RingPush | src/s_SafeQueue.hpp:26-27 | writing the head slot appends one element to the slots read from tail |
| SafeQueue.RingPop | src/s_SafeQueue.hpp:37-38 | advancing tail drops the oldest element |
| SafeQueue.CountAfterPush | src/s_SafeQueue.hpp:23-27 | advancing head adds one to the count |
| SafeQueue.CountAfterPop | src/s_SafeQueue.hpp:37-38 | advancing tail takes one from the count |
| SafeQueue.SafeQueue.constructor | src/s_SafeQueue.hpp:74-79 | a ring of maxSize slots with head = tail = 0, holding nothing |
| SafeQueue.SafeQueue.Push | src/s_SafeQueue.hpp:20-30 | once a slot besides the one kept free is available, the element joins the back of the queue |
| SafeQueue.SafeQueue.Pop | src/s_SafeQueue.hpp:31-42 | on a non-empty queue, the oldest element is returned and leaves the queue; the ring is not written |
| SafeQueue.SafeQueue.Peek | src/s_SafeQueue.hpp:43-53 | on a non-empty queue, the oldest element is returned and nothing changes |
| SafeQueue.SafeQueue.Empty | src/s_SafeQueue.hpp:54-58 | head == tail holds exactly when the queue holds nothing |
| SafeQueue.SafeQueue.RemoveAll | src/s_SafeQueue.hpp:59-64 | head = tail = 0 and the queue is empty |
| SafeQueue.SafeQueue.WaitEmpty | src/s_SafeQueue.hpp:65-72 | returns once the queue is empty and changes nothing |
| SafeQueue.FifoOrder | src/s_SafeQueue.hpp:20-42 | pushing a then b into an empty queue of at least three slots and popping twice gives a then b and leaves it empty |
| GcodeBlocks.MergeBlocks | src/gcd/gcode_interpreter.cpp:546-553 | the result has the keys of both blocks; the source's values win, and the destination's other values stay |
| GcodeBlocks.MergeEmpty | src/gcd/gcode_interpreter.cpp:546-553 | merging two empty blocks gives the empty block |
| GcodeBlocks.MergeNeutral | src/gcd/gcode_interpreter.cpp:546-553 | merging with an empty block changes nothing, from either side |
| GcodeBlocks.MergeIdempotent | src/gcd/gcode_interpreter.cpp:546-553 | merging the same source twice is merging it once |
| GcodeBlocks.MergeAssociative | src/gcd/gcode_interpreter.cpp:546-553 | merge is associative |
| GcodeBlocks.DiffMeaning | src/gcd/gcode_interpreter.cpp:556-563 | a key is in the difference iff it is in the destination with a value unlike the source's, or missing from the destination while the source holds a non-zero there (operator[] inserted 0); its value is the destination's, or 0 |
| GcodeBlocks.DiffBlocks | src/gcd/gcode_interpreter.cpp:556-563 | the loop computes that difference: the destination without the entries the source repeats |
| GcodeBlocks.DiffOfSuperset | src/gcd/gcode_interpreter.cpp:556-563 | when the destination has every key of the source, the difference is exactly its new or changed entries |
| GcodeBlocks.MergeDiffRestores | src/gcd/gcode_interpreter.cpp:546-563 | merging the difference back onto the source recovers a destination that extends the source |
| GcodeBlocks.DiffInsertsZero | src/gcd/gcode_interpreter.cpp:560 | the 0 inserted by operator[]: {X: 1} against {Y: 2} gains Y = 0 |
| GcodeBlocks.BlockToDistanceMerge | src/gcd/gcode_interpreter.cpp:41-45 | the position of a merge takes each of X, Y, Z from the source when present, else from the destination (0 when missing) |
| GcodeBlocks.VectorMoveZero | src/gcd/gcode_interpreter.cpp:87-90 | the move between two blocks is zero exactly when X, Y and Z agree |
| GcodeBlocks.LastStateAfterProgramExecution | src/gcd/gcode_interpreter.cpp:93-109 | the loop computes the fold: before each block M is erased, a dwell block (int)G == 4 is cleared, and the block is merged in |
| GcodeBlocks.LastStateHasXYZ | src/gcd/gcode_interpreter.cpp:95-98 | X, Y and Z are always in the state |
| GcodeBlocks.LastStateConcat | src/gcd/gcode_interpreter.cpp:99-107 | running p then q is running q from the state p leaves |
| GcodeBlocks.DwellOnlyDropsM | src/gcd/gcode_interpreter.cpp:100-106 | a dwell block only drops the M key |
| GcodeBlocks.LastStateM | src/gcd/gcode_interpreter.cpp:100-106 | M survives only from the last block, and only if that block is not a dwell |
| GcodeBlocks.LastStateValue | src/gcd/gcode_interpreter.cpp:99-107 | every other key holds the value of the last non-dwell block that has it |
| GcodeBlocks.KeyUntouched | src/gcd/gcode_interpreter.cpp:99-107 | blocks without a key, or dwells, leave it as it was |
| GcodeParse.Clean | src/gcd/gcode_interpreter.cpp:637 | regex_replace of [ \r\n\t]: no blank is left and nothing is added |
| GcodeParse.Code | src/gcd/gcode_interpreter.cpp:645 | the text before the first ';': a prefix of the line holding no ';' |
| GcodeParse.ToUpper | src/gcd/gcode_interpreter.cpp:646 | a letter becomes upper case, anything else is kept |
| GcodeParse.ScanWordsShape | src/gcd/gcode_interpreter.cpp:647-655 | after the scan the words are keyed by exactly the letters read; the current letter is the last one read and holds the current text |
| GcodeParse.ScanWordsFails | src/gcd/gcode_interpreter.cpp:653 | the scan throws exactly when the code starts with something other than a letter |
| GcodeParse.ConvertWord | src/gcd/gcode_interpreter.cpp:659-661 | stod with the idx check succeeds exactly when the whole word is one number, giving that number; otherwise it throws stod's error or "this is not a number" |
| GcodeParse.ConvertUpToOk | src/gcd/gcode_interpreter.cpp:657-663 | conversion succeeds exactly when every word converts |
| GcodeParse.ConvertUpToValue | src/gcd/gcode_interpreter.cpp:657-663 | a successful conversion keeps every letter, each with the number of its word |
| GcodeParse.ConvertUpToError | src/gcd/gcode_interpreter.cpp:657-663 | a failed conversion reports the smallest letter whose word does not convert, because std::map iterates in ascending key order |
| GcodeParse.ConvertErrorStays | src/gcd/gcode_interpreter.cpp:657-663 | an error at an earlier letter is the error of the whole conversion |
| GcodeParse.CommandToMapOfArguments | src/gcd/gcode_interpreter.cpp:634-665 | the three loops compute the line's block or its error |
| GcodeParse.ReadWords | src/gcd/gcode_interpreter.cpp:644-656 | the first loop reads the words of the text up to its first ';', or throws when text precedes the first letter |
| GcodeParse.ConvertWords | src/gcd/gcode_interpreter.cpp:657-663 | the second loop converts every word in ascending letter order and stops at the first failure |
| GcodeParse.CommandToMap | src/gcd/gcode_interpreter.cpp:634-665 | a line holding a '\n' is refused with "new line is not allowed" |
| GcodeParse.NewLineIff | src/gcd/gcode_interpreter.cpp:638-639 | "new line is not allowed" is the result exactly when the line holds a '\n' |
| GcodeParse.StartsWithNumberIff | src/gcd/gcode_interpreter.cpp:653 | "cannot start with number" is the result, for a line without new line, exactly when its code starts with something other than a letter |
| GcodeParse.CommandToMapKeys | src/gcd/gcode_interpreter.cpp:644-663 | on success the keys are exactly the letters of the code |
| GcodeParse.SameCode | src/gcd/gcode_interpreter.cpp:634-665 | only the code matters: two lines with the same code, both with or both without a new line, read the same |
| GcodeParse.IgnoresBlanks | src/gcd/gcode_interpreter.cpp:637-644 | a blank anywhere is ignored |
| GcodeParse.CommentIgnored | src/gcd/gcode_interpreter.cpp:645 | everything after a ';' is ignored |
| GcodeParse.BlankLineIsEmpty | tests/gcd/gcode_interpreter_command_to_map_of_arguments_test.cpp:41-49 | an empty line, or one holding only blanks, is the empty block |
| GcodeParse.PlainLine | src/gcd/gcode_interpreter.cpp:644-663 | a line without new lines, blanks or ';' reads as the conversion of its words |
| GcodeParse.ConvertsAll | src/gcd/gcode_interpreter.cpp:657-663 | upper-case words that all convert give a block with the same keys and their numbers |
| GcodeParse.ReadsG0x10 | tests/gcd/gcode_interpreter_command_to_map_of_arguments_test.cpp:66-73 | "G0x10" (the test's line without its Y word) reads as {G: 0, X: 10}, the lower-case x read as X |
| GcodeParse.ReadsLineWithComment | tests/gcd/gcode_interpreter_command_to_map_of_arguments_test.cpp:84-90 | "G0 x 10 ; Y - 20.5" reads as {G: 0, X: 10} |
| GcodeParse.RejectsTrailingText | tests/gcd/gcode_interpreter_command_to_map_of_arguments_test.cpp:96 | "G1X0$0T0" fails because the word of X has text after its number |
| GcodeParse.RejectsLeadingNumber | tests/gcd/gcode_interpreter_command_to_map_of_arguments_test.cpp:98-101 | "2G1X0" fails because it starts with a number |
| GcodeParse.Lines | src/gcd/gcode_interpreter.cpp:616-621 | the pieces between line breaks: always at least one |
| GcodeParse.LinesHaveNoBreaks | src/gcd/gcode_interpreter.cpp:616-621 | no piece holds a line break |
| GcodeParse.LinesAtBreak | src/gcd/gcode_interpreter.cpp:616-621 | a line break splits the text into the pieces before it and those after it |
| GcodeParse.GcodeToMapsOfArguments | src/gcd/gcode_interpreter.cpp:612-631 | the loop parses every piece in order, keeps the non-empty maps and stops at the first error |
| GcodeParse.ParseErrorStays | src/gcd/gcode_interpreter.cpp:625-627 | an error in the first n lines is the error of the whole program |
| GcodeParse.ParseLinesFails | src/gcd/gcode_interpreter.cpp:622-627 | a program fails exactly when one of its lines does |
| GcodeParse.ParseLinesError | src/gcd/gcode_interpreter.cpp:625-627 | the error names the first failing line, by its index and text, with that line's error; every earlier line parses |
| GcodeParse.ParseLinesBlocks | src/gcd/gcode_interpreter.cpp:623-624 | on success every block kept is non-empty and is the parse of one of the lines |
| GcodeParse.ParseLines | src/gcd/gcode_interpreter.cpp:621-629 | on success no more blocks than lines and none empty; on failure the error names a line of the list by its index and text |
| GcodeParse.ParseLinesAppend | src/gcd/gcode_interpreter.cpp:621-629 | two line lists that both parse give the blocks of the first followed by those of the second |
| GcodeParse.GcodeToMapsAtBreak | src/gcd/gcode_interpreter.cpp:612-631 | two texts that both parse, joined by a line break, give the blocks of the first followed by those of the second |
| GcodeParse.EmptyProgram | src/gcd/gcode_interpreter.cpp:612-631 | an empty program has no blocks |
| GcodePrograms.RemoveDuplicateBlocks | src/gcd/gcode_interpreter.cpp:179-215 | the loop computes the fold: each G0/G1/G92 block without M is merged into the state and written as its difference with the G of the new state when XYZ or F changes, or dropped; every other block is copied |
| GcodePrograms.Dedup | src/gcd/gcode_interpreter.cpp:179-212 | the output so far is never longer than the input, and the current state keeps every key of the default state merged with the initial one |
| GcodePrograms.DedupKeepsOthers | src/gcd/gcode_interpreter.cpp:191-211 | every block that is not a G0/G1/G92 motion without M comes through unchanged and in order |
| GcodePrograms.EmitIsMotion | src/gcd/gcode_interpreter.cpp:198-200 | a written move is itself a motion block, carrying the new state's G |
| GcodePrograms.DedupState | src/gcd/gcode_interpreter.cpp:195-206 | the state after the loop is the merge of all motion blocks onto the start |
| GcodePrograms.DroppedKeeps | src/gcd/gcode_interpreter.cpp:196-206 | a dropped block leaves X, Y, Z and F as they were |
| GcodePrograms.EmitReplays | src/gcd/gcode_interpreter.cpp:198-202 | merging a written move onto any state that agreed with the old state in X, Y, Z, F reaches the new state in X, Y, Z and F |
| GcodePrograms.DedupReplays | src/gcd/gcode_interpreter.cpp:179-215 | replaying the output's motion blocks reaches the same X, Y, Z and F as the input's: only true duplicates were dropped |
| GcodePrograms.Patch | src/gcd/gcode_interpreter.cpp:598-604 | the feedrate patch keeps the number of groups |
| GcodePrograms.Place | src/gcd/gcode_interpreter.cpp:571-595 | a block that is placed leaves at least one group, and adds at most one group |
| GcodePrograms.Grouped | src/gcd/gcode_interpreter.cpp:566-609 | a non-empty program that groups has between one group and one group per block; the empty program cannot fail |
| GcodePrograms.PlaceBlock | src/gcd/gcode_interpreter.cpp:571-595 | the first half of the loop body: the first block must have G or M; a G block joins the last group when that group's last block has G and its front has the same G, and opens a group otherwise; an M block opens a group; a block with neither joins a group whose front has G and is an error otherwise |
| GcodePrograms.PatchFeedrate | src/gcd/gcode_interpreter.cpp:598-604 | a last group of one G1 block without F is replaced by a G1 head at the current feedrate followed by the block; the number of groups is kept |
| GcodePrograms.GroupGcodeCommands | src/gcd/gcode_interpreter.cpp:566-609 | the loop computes the groups of the program, or its first error |
| GcodePrograms.GroupedEmpty | src/gcd/gcode_interpreter.cpp:566-609 | an empty program gives no groups |
| GcodePrograms.PlaceShape | src/gcd/gcode_interpreter.cpp:577-594 | a block joins the last group or opens a new one; no other group changes |
| GcodePrograms.GroupedFirstError | src/gcd/gcode_interpreter.cpp:571-575 | "the first command must be G or M" is the result exactly when the first block has neither |
| GcodePrograms.GroupedAxisOnly | src/gcd/gcode_interpreter.cpp:589-593 | a block with neither G nor M is an error exactly when the last group's front has no G, and then the error is "not clear if the command is about G or M" |
| GcodePrograms.PlaceKeepsShape | src/gcd/gcode_interpreter.cpp:577-594 | placing a block keeps the earlier groups well formed, and the last one starts with G or is a lone M and keeps one G |
| GcodePrograms.PatchKeepsShape | src/gcd/gcode_interpreter.cpp:598-604 | the feedrate patch makes the groups well formed |
| GcodePrograms.GroupedWellFormed | src/gcd/gcode_interpreter.cpp:566-609 | every group starts with a G block or is a single M block, all its G blocks share the front's (int) G, and a G1 group starts with a feedrate |
| GcodePrograms.GroupStateKeys | src/gcd/gcode_interpreter.cpp:569-596 | merging never loses a key of the initial state |
| GcodePrograms.GroupedNoOutOfRange | src/gcd/gcode_interpreter.cpp:579-602 | with F in the initial state, neither `at('G')` nor `at('F')` throws |
| GcodePrograms.PlaceUnpatched | src/gcd/gcode_interpreter.cpp:577-594 | placing a block appends it to the program read back from the groups |
| GcodePrograms.PatchUnpatched | src/gcd/gcode_interpreter.cpp:598-604 | the patch adds only a generated head, so the program read back is unchanged |
| GcodePrograms.GroupedUnpatched | src/gcd/gcode_interpreter.cpp:566-609 | when it succeeds, the groups with the generated heads left out join back to the program, order kept, provided no block of the program is exactly a G and an F |
| GcodePrograms.GroupErrorStays | src/gcd/gcode_interpreter.cpp:575-593 | once an error is thrown the rest of the program does not matter |
| RemoveG92.QuantizeBlock | src/gcd/remove_g92_from_gcode.cpp:36-39 | rounding keeps the keys of the block |
| RemoveG92.QuantizeValues | src/gcd/remove_g92_from_gcode.cpp:36-39 | the in-place loop cuts every value of the block to the 1/1024 grid |
| RemoveG92.QuantizeBounds | src/gcd/remove_g92_from_gcode.cpp:37-38 | (int)(v·1024)/1024 moves a value toward zero by less than 1/1024 |
| RemoveG92.QuantizeOnGrid | src/gcd/remove_g92_from_gcode.cpp:37-38 | a value already on the 1/1024 grid is kept |
| RemoveG92.QuantizeInt | src/gcd/remove_g92_from_gcode.cpp:37-38 | an integer value is kept |
| RemoveG92.ShiftBlock | src/gcd/remove_g92_from_gcode.cpp:46-49 | the shift is subtracted from each of X, Y, Z and A the block has |
| RemoveG92.ShiftedMeaning | src/gcd/remove_g92_from_gcode.cpp:46-49 | the subtraction keeps the keys, changes X, Y, Z and A by their shift and leaves every other value |
| RemoveG92.ShiftedByZero | src/gcd/remove_g92_from_gcode.cpp:46-49 | a zero shift leaves the block unchanged |
| RemoveG92.EraseGM | src/gcd/remove_g92_from_gcode.cpp:54-55 | erasing G then M is dropping both keys |
| RemoveG92.RemoveG92FromGcode | src/gcd/remove_g92_from_gcode.cpp:30-58 | the loop computes the as-written fold: G92 blocks change the shift and are dropped, other blocks are written shifted, and the state takes the merged (shifted) block without G and M |
| RemoveG92.CountG92 | src/gcd/remove_g92_from_gcode.cpp:40 | a program has no more G92 blocks than blocks |
| RemoveG92.RunAsWritten | src/gcd/remove_g92_from_gcode.cpp:30-58 | the pass as written drops every G92 block and keeps every other one, so the output is as long as the input minus its G92 blocks; the shift never gets an A component, because block_to_distance_t leaves the fourth axis 0; and after every block the state holds neither G nor M |
| RemoveG92.ShiftUnchangedIff | src/gcd/remove_g92_from_gcode.cpp:41-43 | a G92 leaves the shift as it was exactly when it restates the current X, Y and Z |
| RemoveG92.WithoutG92 | src/gcd/remove_g92_from_gcode.cpp:30-58 | without G92 the shift stays zero and the program comes back block by block, only rounded |
| RemoveG92.WithoutG92Unchanged | src/gcd/remove_g92_from_gcode.cpp:30-58 | a program without G92 whose values are on the grid comes back exactly as it was |
| RemoveG92.G92Tracks | src/gcd/remove_g92_from_gcode.cpp:41-44 | a G92 renames the position: the shift grows by exactly what the program position does, so the machine keeps its place |
| RemoveG92.MoveTracks | src/gcd/remove_g92_from_gcode.cpp:46-51 | another block moves the machine to its shifted coordinates and the program to its own, which keeps machine = program - shift |
| RemoveG92.CorrectedTracksPosition | src/gcd/remove_g92_from_gcode.cpp:30-58 | corrected: after any program, replaying the output leaves the machine at the program's position minus the shift on each axis |
| RemoveG92.RunCorrected | src/gcd/remove_g92_from_gcode.cpp:30-58 | the corrected pass drops and keeps the same blocks as the original, its shift has no A component and its state holds neither G nor M |
| RemoveG92.G92Axis | src/gcd/remove_g92_from_gcode.cpp:40-44 | a G92 on the grid writes nothing; the shift of an axis grows by how far the block renames it; both versions agree on it |
| RemoveG92.MoveAxis | src/gcd/remove_g92_from_gcode.cpp:45-51 | another block is written shifted; as written the state takes the shifted value, corrected it takes the block's own |
| RemoveG92.WrittenMoveX | src/gcd/remove_g92_from_gcode.cpp:46-51 | as written, a move G<g>X<x> is written as X x - shift and the state's X becomes that shifted value |
| RemoveG92.WrittenG92X | src/gcd/remove_g92_from_gcode.cpp:41-44 | as written, G92X<x> writes nothing and grows the X shift by x minus the state's X |
| RemoveG92.CorrectedMoveX | src/gcd/remove_g92_from_gcode.cpp:46-51 | corrected, the same move leaves the program's own X in the state |
| RemoveG92.CorrectedG92X | src/gcd/remove_g92_from_gcode.cpp:41-44 | corrected, G92X<x> grows the X shift by x minus the program's X |
| RemoveG92.G92RestatingGoesBack | src/gcd/remove_g92_from_gcode.cpp:30-58 | G0X10, G92X10, G0X0 writes X10 and then X0: a G92 that restates the position changes nothing |
| RemoveG92.G92ShiftCountedTwice | src/gcd/remove_g92_from_gcode.cpp:41-50 | G0X10, G92X0, G0X5, G92X0, G0X1 ends at machine X26 as written, where the corrected pass gives X16 |
| RemoveG92.WrittenEndsAt26 | src/gcd/remove_g92_from_gcode.cpp:41-50 | as written, the last move of G0X10, G92X0, G0X5, G92X0, G0X1 is emitted as X26 |
| RemoveG92.CorrectedEndsAt16 | src/gcd/remove_g92_from_gcode.cpp:41-50 | corrected, the last move of the same program is emitted as X16 |
| GcdCommands.GMove | src/gcd_commands.cpp:129-150 | G0/G1 changes only the remembered speeds and the machine; the line counter and V0 settings stay |
| GcdCommands.GExec | src/gcd_commands.cpp:127-212 | the G executor never changes the line counter or the V0 settings |
| GcdCommands.MExec | src/gcd_commands.cpp:214-257 | the M executor changes nothing but the machine |
| GcdCommands.MaskSelects | src/gcd_commands.cpp:130-133 | bit i of coordsToMove is set exactly when the block names axis i |
| GcdCommands.MoveSpeed | src/gcd_commands.cpp:134-149 | G0/G1 calls gotoXYZ once, with the named coordinates (missing ones 0), the mask, and F when given or else the code's remembered speed; a given F becomes the speed remembered for that code only |
| GcdCommands.SpeedRemembered | src/gcd_commands.cpp:135-149 | a G1 (or G0) without F moves at the F of the previous one that gave it |
| GcdCommands.MoveReaches | src/gcd_commands.cpp:149-150 | without a pending break a move answers "ok executed movement", takes the named axes to their values and leaves the others |
| GcdCommands.MoveBreaks | src/s_Machine.cpp:116-120 | a pending break turns the move into a BreakException: the break is cleared and nothing moves |
| GcdCommands.GExecFrame | src/gcd_commands.cpp:151-211 | every G code other than G0 and G1 changes at most the machine |
| GcdCommands.DwellPauses | src/gcd_commands.cpp:151-159 | G4 pauses for (int)P milliseconds, else (int)(1000·X), else 0, and answers "ok dwell executed" |
| GcdCommands.ResetThenReport | src/gcd_commands.cpp:160-167 | what G92 sets, missing axes as 0, is what it reports and what M114 reports afterwards |
| GcdCommands.SteppersGateHoming | src/gcd_commands.cpp:170-208 | after M18, G28 waits, answers that the steppers are not enabled and moves nothing; after M17 it waits and homes Z, X, Y and reports the position |
| GcdCommands.HomedAxesNamed | src/gcd_commands.cpp:176-187 | G28 naming no axis homes all three, Z first; otherwise exactly the named ones |
| GcdCommands.SpindleDefaultPause | src/gcd_commands.cpp:219-239 | M3 without P or X switches the spindle on and pauses 7 seconds; M5 without them switches it off and does not pause |
| GcdCommands.ButtonWait | src/gcd_commands.cpp:252-254 | M577 reports the button, or throws the BreakException when a break is pending; the break is cleared either way |
| GcdCommands.UnknownCodes | src/gcd_commands.cpp:211 | an unknown G or M number gets its "!!" answer and changes nothing |
| GcdCommands.SkipWhitespaces | src/gcd_commands.cpp:55-57 | the loop skips spaces, new lines and carriage returns (not tabs) |
| GcdCommands.ReadNumber | src/gcd_commands.cpp:80-84 | the number text is the longest run of digits, '-' and '.' |
| GcdCommands.ScanPair | src/gcd_commands.cpp:66-89 | one round of the scanning loop reads one pair, or stops the scan at a character that cannot start a code |
| GcdCommands.PairsFrom | src/gcd_commands.cpp:65-90 | at most one pair per character left; every pair has a command letter (or the carried code) and a number-shaped text |
| GcdCommands.PairsStopAtStray | src/gcd_commands.cpp:68-76 | the scan reports a bad character only when one that is neither a command letter nor skipped stands in the rest of the line |
| GcdCommands.CommentText | src/gcd_commands.cpp:59-60 | the reply to a comment is "ok comment" |
| GcdCommands.MessageText | src/gcd_commands.cpp:127-256 | every reply starts with a three-character tag and carries its detail after it; the tag is "!! " exactly for a refused command and "ok " otherwise |
| GcdCommands.Goto | src/gcd_commands.cpp:129-150 | the move is logged; a pending break is reported and cleared and leaves the position; otherwise each selected axis goes to its target and the others stay; steppers, endstops and button do not change |
| GcdCommands.HomedAxes | src/gcd_commands.cpp:176-187 | G28 homes one to three axes, each an index below 3, Z first and then X and Y in order |
| GcdCommands.Spindle | src/gcd_commands.cpp:219-239 | only the machine's log changes: the spindle call, then a pause only when the delay is positive; the reply is the given text |
| GcdCommands.ScanPairs | src/gcd_commands.cpp:62-90 | the scanning loop computes the pairs of the line and whether it stopped at a bad character |
| GcdCommands.PairsOfRender | src/gcd_commands.cpp:65-90 | a line written from well-formed pairs is read back as those pairs |
| GcdCommands.PairsStopAtBadChar | src/gcd_commands.cpp:67-76 | at a character that cannot start a pair the scan stops with "err bad gcode command", keeping the pairs before it |
| GcdCommands.PairsStopAfterSpace | src/gcd_commands.cpp:67-78 | after white space a code letter is expected, so a digit there stops the scan too |
| GcdCommands.ScanBlankEnd | src/gcd_commands.cpp:65-90 | when only white space is left the loop reads one more pair, the last code with an empty text; the trimmed scan reads none |
| GcdCommands.TrailingSpaceAsWritten | src/gcd_commands.cpp:65-90 | as written: white space after the last number adds the pair (last code, "") |
| GcdCommands.TrailingSpaceFails | src/gcd_commands.cpp:95-98 | as written: a line with a G or M and white space after its last number makes stod throw, so such a line never runs |
| GcdCommands.TrailingSpaceTrimmed | src/gcd_commands.cpp:65-90 | corrected: with white space at the end ignored, the line reads as its pairs |
| GcdCommands.Converted | src/gcd_commands.cpp:96-98 | every pair's text goes through stod without a length check |
| GcdCommands.SubStep | src/gcd_commands.cpp:95-103 | one pair keeps the existing sub-commands in order, each with its own letter, and a G or M opens one more holding just itself |
| GcdCommands.SplitSubCommands | src/gcd_commands.cpp:92-103 | the splitting loop computes the sub-commands of the converted pairs, or reports that stod threw |
| GcdCommands.SubsShape | src/gcd_commands.cpp:95-103 | one sub-command per G or M, in order, each holding its own letter |
| GcdCommands.SubsFailsIff | src/gcd_commands.cpp:96-98 | stod throws exactly when a pair at or after the first G or M has a text that does not start with a number |
| GcdCommands.SubsSkipLeading | src/gcd_commands.cpp:96 | pairs before the first G or M are not read at all |
| GcdCommands.StepOpens | src/gcd_commands.cpp:97-101 | a G or M before any sub-command opens the first one |
| GcdCommands.StepWrites | src/gcd_commands.cpp:96 | any other letter is written into the open sub-command |
| GcdCommands.StepWritesAndOpens | src/gcd_commands.cpp:96-101 | a later G or M is written into the open sub-command, then opens its own |
| GcdCommands.OpenerOverwritten | src/gcd_commands.cpp:95-103 | as written: for G1 X10 G0 both sub-commands run with G0, the first one still holding X10 |
| GcdCommands.SubStepFixed | src/gcd_commands.cpp:95-103 | corrected step: the existing sub-commands are kept and a G or M opens one more |
| GcdCommands.SubsFixedKeepsOpeners | src/gcd_commands.cpp:95-103 | corrected: every sub-command holds its own G or M with the number written after it |
| GcdCommands.SubsFixedAgrees | src/gcd_commands.cpp:95-103 | with at most one G or M on the line the correction changes nothing |
| GcdCommands.ExecSub | src/gcd_commands.cpp:106 | running a sub-command never changes the line counter or the V0 settings |
| GcdCommands.RunSubs | src/gcd_commands.cpp:105-107 | the sub-commands run in order; without a BreakException there is one reply per sub-command |
| GcdCommands.ExecLineCounter | src/gcd_commands.cpp:52-112 | the counter goes up by one per line, and the callback receives the number the line had before |
| GcdCommands.ExecComment | src/gcd_commands.cpp:59-60 | an empty line or one starting with ';' answers "ok comment" and touches nothing but the counter |
| GcdCommands.ExecBadCharGlued | src/gcd_commands.cpp:73-107 | at a bad character the pairs before it still run, and their replies follow "err bad gcode command" with no separator |
| GcdCommands.BreakStopsLine | src/gcd_commands.cpp:105-112 | a pending break before a line whose first sub-command is a move throws there: nothing after it runs and the callback is not called |
| GcdCommands.GcdCommandsInterpreter.constructor | src/gcd_commands.cpp:120-124 | G0 speed 20, G1 speed 5, and the given machine |
| GcdCommands.GcdCommandsInterpreter.SetMachine | src/gcd_commands.cpp:31-33 | only the machine is replaced |
| GcdCommands.GcdCommandsInterpreter.SetLine | src/gcd_commands.cpp:35-37 | only the line counter is replaced |
| GcdCommands.GcdCommandsInterpreter.WorkSpeed | src/gcd_commands.hpp:56-59 | only the G1 speed is replaced, and it is returned |
| GcdCommands.GcdCommandsInterpreter.FastSpeed | src/gcd_commands.hpp:60-63 | only the G0 speed is replaced, and it is returned |
| GcdCommands.GcdCommandsInterpreter.G0speedAcc | src/gcd_commands.hpp:65-68 | only the V0 settings are replaced |
| GcdCommands.GcdCommandsInterpreter.BreakExecution | src/gcd_commands.cpp:40-42 | only the machine's break flag is set |
| GcdCommands.GcdCommandsInterpreter.Finish | src/gcd_commands.cpp:115-117 | only a waitFinish call is added to the machine |
| GcdCommands.GcdCommandsInterpreter.GetPosition | src/gcd_commands.cpp:44-46 | the machine's position |
| GcdCommands.GcdCommandsInterpreter.ExecuteSub | src/gcd_commands.cpp:106 | the executor of the sub-command's letter, on the fields |
| GcdCommands.GcdCommandsInterpreter.RunSubCommands | src/gcd_commands.cpp:105-107 | the loop runs the sub-commands in order and joins their replies with "; " after the text already in the result |
| GcdCommands.GcdCommandsInterpreter.ExecLine | src/gcd_commands.cpp:61-109 | a line that is not a comment is scanned, split and run as the line function says; a failed stod gives no callback |
| GcdCommands.GcdCommandsInterpreter.RunLine | src/gcd_commands.cpp:105-107 | the sub-commands run in order after the bad-character prefix, and the callback text is the answer's |
| GcdCommands.GcdCommandsInterpreter.ExecCommand | src/gcd_commands.cpp:50-113 | the new fields and the outcome are those of the line function, and the callback text is its reply |
| Engine.Lines | src/s_GcodeEngine.cpp:213-220 | the pending text never holds a '\n' or '\r' |
| Engine.LinesExtend | src/s_GcodeEngine.cpp:213-220 | reading further text only adds lines after those already read |
| Engine.LinesOfPlain | src/s_GcodeEngine.cpp:214-215 | text without a terminator only grows the pending line |
| Engine.LinesAfterLine | src/s_GcodeEngine.cpp:216-218 | a line and its '\n' add exactly that line and empty the pending text |
| Engine.LinesOfProgram | src/s_GcodeEngine.cpp:213-220 | a program written as lines, each followed by '\n', is cut back into those lines, and what follows the last '\n' stays pending |
| Engine.RunLinesStopped | src/s_GcodeEngine.cpp:209-245 | once a line has thrown, no later line runs |
| Engine.RunLines | src/s_GcodeEngine.cpp:213-220 | at most one callback per line, and one for every line exactly when none threw |
| Engine.RunLinesCalls | src/s_GcodeEngine.cpp:213-220 | one callback per line in order, numbered from the counter on; the run stops exactly when not every line got its callback |
| Engine.ProgramRun | src/s_GcodeEngine.cpp:209-245 | the end code is 0, -2 or -127, and 0 exactly when every line got its callback |
| Engine.ProgramEnds | src/s_GcodeEngine.cpp:209-245 | the end code is 0, -2 or -127; it is 0 exactly when every line got its callback; lines are numbered 0, 1, 2, ... with their own text; finish is called except after -127 |
| Engine.TailNeverRuns | src/s_GcodeEngine.cpp:213-221 | text after the last line terminator is never executed |
| Engine.GcodeEngine.constructor | src/s_GcodeEngine.cpp:254-269 | the interpreter gets the machine and the configured speeds and V0 settings, and no program is running |
| Engine.GcodeEngine.SetLine | src/s_GcodeEngine.cpp:173-176 | only the interpreter's line counter is replaced |
| Engine.GcodeEngine.Finish | src/s_GcodeEngine.cpp:182-185 | only a waitFinish call is added to the machine |
| Engine.GcodeEngine.BreakExecution | src/s_GcodeEngine.cpp:187-190 | only the machine's break flag is set |
| Engine.GcodeEngine.IsGcodeProgramRunning | src/s_GcodeEngine.cpp:192-195 | the running flag |
| Engine.GcodeEngine.GetPosition | src/s_GcodeEngine.cpp:197-200 | the machine's position |
| Engine.GcodeEngine.ExecCommand | src/s_GcodeEngine.cpp:177-180 | the interpreter runs the line, and its callback is recorded when the line was answered |
| Engine.GcodeEngine.RunProgramLines | src/s_GcodeEngine.cpp:210-220 | the character loop runs the lines of the text in order until one throws, recording each callback |
| Engine.GcodeEngine.ExecGcodeProgram | src/s_GcodeEngine.cpp:202-252 | refused with -1 while a program runs, changing nothing else; otherwise the end callback and the result carry how the whole program ended, and the flag is cleared |

## Left out

- Threads, mutexes, condition variables and atomics are left out: every object is modelled sequentially.
- Hardware is left out. Motor, GPIO and timer calls are recorded as logs and delays, and real-time scheduling is not modelled.
- TimerExecutor.SteppingTimer.constructor: the driver is fixed to the in-memory driver `InMemDriver.InMem`; the source takes any `low_steppers` implementation through a `std::shared_ptr`.
- Callbacks are left out as code. What a step, break, key or line callback does is not modelled; terminate requests and break-callback answers are scripted maps from tick index to value, and the arguments each callback receives are recorded.
- Floating point is left out. Doubles are unbounded `real`s and `std::stod` is exact decimal scanning. Its range errors, exponent and hex forms and rounding are out; neither parser lets a letter reach `std::stod`, so only its decimal subset matters.
- C++ `int` overflow is left out: integers are unbounded. This includes the 0x0fffffff count cap arithmetic and `_delay_microseconds * counter_delay` in the timer executor.
- DistanceT.Sumv: the source accumulates in `double` from 0.0 and converts back to `int`. The model sums exactly.
- DtoSteps.Len2: the source sums the squares as `int`s and returns a `double`. The model is exact, with no overflow and no rounding.
- DtoSteps.Len2Sel: the same holds for the selected sum: the model is exact, with no `int` overflow and no rounding to `double`.
- Common.FixedSix: the contract states only the length of `std::to_string` of a double, not its digits.
- StepsAnalyzer.StepsFromTick: the result is stated only for command lists without negative counts.
- SafeQueue.SafeQueue.constructor: a ring of size 0 (a modulo by zero in the source) is excluded by `requires`.
- SafeQueue.SafeQueue.Push: the blocking wait for room becomes a precondition, as do the waits of `pop`, `peek` and `waitEmpty`.
- ButtonsFake.LowButtonsFake.TriggerButton: the key's callback is recorded as a call; what it does is not modelled.
- InMemDriver.InMem.constructor: `std::vector<bool>(false, counters.size())` builds an empty vector, because the arguments are swapped. It is modelled as written, so `enabled` starts empty.
- GcodeParse.GcodeToMapsOfArguments: the empty token that `sregex_token_iterator` yields after a final terminator is an extra empty line. It parses to an empty block, which is dropped.
- GcodePrograms.GroupGcodeCommands: the `std::out_of_range` thrown by `front().at('G')` and `current_state.at('F')` is the error value `OutOfRange`.
- GcdCommands.HomedAxesNamed: the G28 homing loop polls end stops that only change in hardware. It is one `Home(axes)` call on the machine, after the steppers check.
- GcdCommands.MoveBreaks: the machine's `gotoXYZ` is one call that throws on a pending break. The machine's coordinate translation, motor queue and per-step break check (src/s_Machine.cpp) are not part of this model.
- GcdCommands.GcdCommandsInterpreter.constructor: the source leaves `line_`, `G0speedV0` and `G0speedV0ddt` uninitialised; the model starts them at 0.
- GcdCommands.GcdCommandsInterpreter.ExecCommand: the interpreter runs the line as written. The corrected scan and split under "## Findings" are proved beside it and are not used by `execCommand` or the engine.
- Engine.GcodeEngine.ExecGcodeProgram: the source never sets `execGcodeProgram_running` to true, only reads and clears it. The -1 branch is modelled, but the engine can only reach it from a state the source never produces.
- Engine.GcodeEngine.ExecGcodeProgram: the stream overload is modelled by the text the stream yields, so both overloads are the same method.
- The configuration and JSON constructors of `GcodeEngine`, `MachineImgGen`, the low-level driver setters and the coordinate translations are not part of this model.

## Findings

| source | as written | input that shows it | evidently intended | confidence | as-written member | corrected member |
|---|---|---|---|---|---|---|
| src/hardware/stepping.cpp:77 | `hardware_commands_to_steps_count` returns the loop index `i` of the current command at the cut-off | two commands of count 2 with cut-off 3: returns 1 | the number of ticks counted up to the cut-off, 3, as the sibling `hardware_commands_to_last_position_after_given_steps` counts | high, not executed | Stepping.StepsCountCutOffDiffers | Stepping.StepsCount |
| src/gcd/remove_g92_from_gcode.cpp:50 | the running state stores the shifted coordinates of moves, so a later G92 measures its shift from them and counts the earlier shift twice | G0X10, G92X0, G0X5, G92X0, G0X1: the last move is emitted as X26 | the machine position in the original coordinates, X16 | high, not executed | RemoveG92.G92ShiftCountedTwice | RemoveG92.CorrectedTracksPosition |
| src/gcd_commands.cpp:65-98 | white space after the last number makes the scan push one more pair (last code, ""), and `std::stod("")` throws | "G1 X10 ": the line is never executed and the program ends with -127 | trailing white space is ignored and the move runs | high, not executed | GcdCommands.TrailingSpaceFails | GcdCommands.TrailingSpaceTrimmed |
| src/gcd_commands.cpp:95-103 | a G or M pair is first written into the open sub-command, so it overwrites that sub-command's own code before opening its own | "G1 X10 G0 Y5": the first sub-command runs as G0 with X10 | every sub-command keeps the code that opened it | medium, not executed | GcdCommands.OpenerOverwritten | GcdCommands.SubsFixedKeepsOpeners |
