# Stepper actuators of the `devices` Arduino library, in Dafny

The `devices` library drives the actuators of a behavioural-experiment rig
from an Arduino. Here the stepper part is modelled and verified. Every device
class answers two calls:

- `loop(fcnIdx)` runs the action with index `fcnIdx`. Index 0 is "do nothing"
  and index 1 is the device's stimulus action.
- `s_finish()` returns the device to its rest state at the end of a stimulus
  period.

The model covers these parts:

- **`myStepper`**, a stepper behind a step/direction driver:
  - `fwd` extends the stepper, pulsing until a Hall-effect sensor reading
    drops to the threshold.
  - `back` retracts it with a fixed number of pulses, computed from the
    retract angle and the microstep divisor.
  - `loop` and `s_finish` drive these two through a RETRACTED/EXTENDED flag.
  - Alongside, the class keeps the stepping engine of the Arduino Stepper
    library: `setSpeed`, `step` and `stepMotor`, with the phase tables for
    motors with 2, 4 and 5 leads.
- **`dummyStepper`** and **`dummySpeaker`**, stand-ins with no hardware.
- **The `Device` interface** and its `loop` / `s_finish` dispatch.

The world outside the program is handled like this:

- **Inputs are parameters.** `analogRead(hallPin)` results are a sequence
  `readings` and `micros()` results a sequence `clock`, each consumed in
  order. The methods that read them return how many readings they took.
- **Outputs are a trace.** Each object's `trace` records every
  `digitalWrite`, `delayMicroseconds`, `delay` and `Serial.println`, in order.
- **C integer semantics are written out.** `unsigned long` is a 32-bit range
  with modular subtraction (`Arith.ULong`, `Arith.Elapsed`). `/` on `int` and
  `long` truncates toward zero (`Arith.TruncDiv`). An `unsigned long`
  assignment reduces modulo 2^32 (`Arith.ToULong`).

The modules:

- `Arith`: C arithmetic.
- `Events`: the trace alphabet.
- `Phases`: the `stepMotor` tables.
- `Timing`: the counter, clock gate and speed of `step`.
- `Devices`: the classes and the dispatch.

### Behaviour of the code worth knowing

The model follows the code in each of these points.

- **`stepHalfDelay` is never set.** The constructor
  (devices.cpp:133) assigns the field to itself. The parameter is spelled
  `stepHalfdelay`, so the field keeps whatever it held. The model takes the
  argument and leaves the field unconstrained, so every pulse width is
  `stepHalfDelay / microstep` of an arbitrary `stepHalfDelay`.
- **`fwd` and `back` differ in what they count.** `fwd` pulses exactly once
  per Hall reading above the threshold. `back` always issues
  `numReverseSteps` pulses and never reads the sensor.
- **`step_number` wraps at `number_of_steps`, not at the table size.** The
  table entry is taken modulo 10 or 4 afterwards. The phase cycle is walked
  in order only when the table length divides `number_of_steps`
  (`Timing.TableIndexAdvances`); otherwise the wrap breaks the order, for
  example by applying the same entry twice (`Timing.WrapRepeatsEntry`).
- **The step engine's fields are never set.** The live constructor leaves
  `number_of_steps`, `pin_count`, `step_number`, `last_step_time`,
  `direction`, `step_delay` and the motor pins uninitialised. The model takes
  them as constructor parameters, restricted to `number_of_steps > 0`,
  `0 <= step_number < number_of_steps` and five motor pins; the other
  fields may hold any value.

## Model

| member | source | states |
|---|---|---|
| Arith.ElapsedModulo | devices.cpp:305 | the gate's `now - last_step_time` is subtraction modulo 2^32, and zero exactly when the two readings are equal |
| Arith.TruncDiv | devices.cpp:147-149 | C division: the remainder is smaller than the divisor in magnitude and has the sign of the dividend (truncation toward zero) |
| Arith.ToULong | devices.cpp:286 | storing into `unsigned long` keeps values already in range and adds 2^32 to negative values down to -2^32 |
| Arith.Abs | devices.cpp:293 | `abs` returns the argument or its negation, never negative |
| Phases.Pattern | devices.cpp:338-463 | `stepMotor` writes one level per lead for an index in its table and writes nothing for any other index or lead count |
| Phases.PatternMatchesComment | devices.cpp:338-463 | every table entry writes exactly the levels in its bit-string comment, lead 1 first |
| Phases.AdjacentEntriesDiffer | devices.cpp:338-463 | cyclically adjacent entries differ in exactly one lead for 2 and 5 leads and in exactly two leads for 4 leads |
| Phases.EntriesDistinct | devices.cpp:338-463 | no two entries of a table are equal |
| Phases.DistanceSymmetric | devices.cpp:338-463 | two lead vectors differ on as many leads in either order |
| Phases.StepMotorWritesEachLead | devices.cpp:338-463 | `stepMotor` writes each lead once, in lead order, with its table level; an out-of-range index or lead count writes nothing |
| Timing.NextIndex | devices.cpp:311-324 | one step keeps `step_number` in `[0, number_of_steps)` |
| Timing.NextIndexMod | devices.cpp:311-324 | a forward step is +1 and a reverse step is -1, modulo `number_of_steps` |
| Timing.StepThenStepBack | devices.cpp:311-324 | a step forward then a step back, or back then forward, restores `step_number` |
| Timing.IndexAfterClosedForm | devices.cpp:301-324 | after k steps `step_number` is (start + k) mod n forward and (start - k) mod n in reverse |
| Timing.TableIndex | devices.cpp:328-331 | the entry handed to `stepMotor` is within the table (mod 10 for 5 leads, mod 4 otherwise) |
| Timing.TableIndexAdvances | devices.cpp:311-331 | when the table length divides `number_of_steps`, a forward step applies the next table entry and a reverse step the previous one, wrapping included |
| Timing.StepChangesLeads | devices.cpp:311-331 | on such a motor every step, in either direction, changes exactly one lead (2 and 5 leads) or two leads (4 leads) |
| Timing.WrapRepeatsEntry | devices.cpp:311-331 | on a 4-lead motor with 5 steps, the wrap from index 4 to 0 applies entry 0 twice and changes no lead |
| Timing.MotorWritesLength | devices.cpp:301-332 | k steps write `pin_count` levels per step for a topology with a table, none otherwise |
| Timing.FiredSpaced | devices.cpp:301-308 | every step happens at a polled reading at least `step_delay` microseconds (mod 2^32) after the previous step |
| Timing.SpeedToDelay | devices.cpp:284-287 | for positive arguments the stored delay is the floor of 60 000 000 / (steps × rpm), a whole number of microseconds bracketing one step |
| Timing.PositiveSpeedDelay | devices.cpp:286 | the two truncating divisions equal one floor division by the product, and the result fits `unsigned long` |
| Timing.SpeedExample | devices.cpp:286 | 60 rpm on a 200-step motor gives 5000 microseconds |
| Devices.RetractSteps | devices.cpp:137 | for any non-zero `microstep`, positive or negative, `numReverseSteps` is a multiple of `microstep`, and its full-step count is the floor of deg × 200 / 360 |
| Devices.FullSteps | devices.cpp:137 | the full steps in the retract angle bracket deg × `FULLSTP_PER_ROTATION` between consecutive multiples of 360 |
| Devices.RetractStepsExample | devices.cpp:137 | 180° at microstep 4 is 400 pulses |
| Devices.PulsesCount | devices.cpp:243-246 | k repetitions of `rotate_one_step(); delay(1);` are 5k events that drive the step pin HIGH exactly k times |
| Devices.FirstAtOrBelow | devices.cpp:243 | the extend loop sees every reading before the first one at or below the threshold, and stops there whenever one exists |
| Devices.Stepper.constructor | devices.cpp:126-141 | configuration as given, `numReverseSteps` per `RetractSteps`, flag RETRACTED, nothing written |
| Devices.Stepper.RotateOneStep | devices.cpp:143-151 | step pin HIGH, wait `stepHalfDelay / microstep` µs, LOW, wait again |
| Devices.Stepper.Fwd | devices.cpp:240-250 | direction pin HIGH, one pulse plus 1 ms per reading above the threshold, stop after the first reading at or below it, print, EXTENDED |
| Devices.Stepper.Back | devices.cpp:263-269 | direction pin LOW, exactly `numReverseSteps` pulses (none if not positive), print, RETRACTED |
| Devices.Stepper.Loop | devices.cpp:198-210 | index 1 on a retracted stepper extends it as `fwd` does; every other case changes nothing and reads nothing |
| Devices.Stepper.SFinish | devices.cpp:212-217 | an extended stepper is retracted as `back` does; a retracted one is left untouched; always RETRACTED after |
| Devices.Stepper.SetSpeed | devices.cpp:284-287 | `step_delay` becomes `SpeedToDelay(number_of_steps, whatSpeed)` |
| Devices.Stepper.StepMotor | devices.cpp:338-463 | the writes are exactly the table entry's writes |
| Devices.Stepper.MoveStepNumber | devices.cpp:311-324 | `step_number` moves one place in the direction, wrapping at both ends |
| Devices.Stepper.StepIfDue | devices.cpp:303-332 | a reading steps exactly when the elapsed time reaches `step_delay`: then time, counter and table writes are updated; otherwise nothing changes |
| Devices.Stepper.PollOnce | devices.cpp:303-332 | one poll keeps the progress of `step` in step with the firing readings |
| Devices.Stepper.Step | devices.cpp:291-334 | direction from the sign; it polls until abs(stepsToMove) readings have fired and stops at the one completing the last step, and reads the clock not at all for zero steps; the last step time, counter and writes match those firings |
| Devices.Stepper.AwaitSteps | devices.cpp:301-333 | the busy-wait ends after exactly `count` firings, at the reading that completes the last one; for `count == 0` it reads no clock value |
| Devices.DummyStepper.constructor | devices.cpp:59-61 | flag RETRACTED, nothing printed |
| Devices.DummyStepper.Loop | devices.cpp:64-76 | index 1 leaves the flag EXTENDED and prints once, whatever the flag was; every other index changes nothing |
| Devices.DummyStepper.SFinish | devices.cpp:78 | the flag is RETRACTED afterwards |
| Devices.DummySpeaker.constructor | devices.h:59-64 | nothing printed |
| Devices.DummySpeaker.Loop | devices.cpp:83-92 | index 1 prints once; every other index changes nothing |
| Devices.DummySpeaker.SFinish | devices.cpp:94 | nothing changes |
| Devices.DeviceLoop | devices.h:28-32 | the dispatch keeps each class's `loop` contract: other indices change nothing; index 1 extends a retracted stepper with exactly the `fwd` trace and readings, leaves an extended one untouched, sets the dummy stepper's flag with its print, and makes the speaker print; the stepping engine is never touched |
| Devices.DeviceSFinish | devices.h:28-32 | the dispatch keeps each class's `s_finish` contract: an extended stepper gets exactly the `back` trace, a retracted one and a speaker are untouched, the dummy stepper is retracted without printing |
| Devices.DeviceSFinishTwice | devices.h:28-32 | through the interface `s_finish` is idempotent on every device |
| Devices.DeviceLoopTwice | devices.h:28-32 | through the interface a second `loop(1)` on the stepper reads and writes nothing |
| Devices.SFinishTwice | devices.cpp:212-217 | `s_finish` is idempotent: a second call writes nothing |
| Devices.LoopTwice | devices.cpp:198-210 | `loop(1)` is idempotent: a second call on an extended stepper writes nothing |

## Left out

- `mySpeaker`, the tone speaker: `tone`, `noTone` and `random` are foreign calls with no visible effect to model.
- `getLine`: Serial input, outside the stepper core.
- `ping`, `version` and the other prints used only for debugging. The prints inside `fwd`, `back` and the dummy `loop`s are kept as `Log` events.
- The `Device` constructor's `deviceCounter` and the `devID` and `devBaseName` fields: static bookkeeping that no modelled behaviour reads.
- `pinMode` calls in the constructor: pin configuration with no effect on the modelled trace.
- The commented-out constructor, `fwd` and `back` variants: not compiled.
- Real time: `delay`, `delayMicroseconds` and `micros` are events or input readings, not durations.
- Devices.Stepper.constructor: the stored `stepHalfDelay` is not related to the `stepHalfdelay` argument, because devices.cpp:133 assigns the field to itself. The constructor also requires `microstep != 0`, since every pulse divides by it.
- Devices.Stepper.constructor: requires `number_of_steps > 0` and `0 <= step_number < number_of_steps`, which devices.cpp:126-141 never establishes. Out-of-range uninitialised values are not modelled: with `number_of_steps == 0` `setSpeed` divides by zero, and with a negative `step_number` the C remainder `step_number % 4` is negative and `stepMotor` writes nothing.
- Devices.RetractSteps: computes `floor(deg * 200 / 360)` exactly. It does not model the double rounding of `reverseRotDeg/360.0` or the conversion back to `int`.
- Devices.Stepper.Step: assumes `int` arithmetic on `step_number` and `number_of_steps` does not overflow (16 bits on AVR Arduinos). It also requires that `clock` holds enough firing readings; with fewer, the source spins forever.
- Devices.Stepper.Fwd: requires that some reading reaches the threshold; without one, the source spins forever.
- Devices.Stepper.RotateOneStep: records the signed quotient as the `delayMicroseconds` argument and does not model its conversion to `unsigned int`.
- Devices.Stepper.SetSpeed: requires `whatSpeed != 0` and a non-zero `number_of_steps`, as C division by zero is undefined. For non-positive arguments only the C truncation and the reduction to 32 bits are modelled.
