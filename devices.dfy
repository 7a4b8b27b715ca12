/** The actuators of the `devices` library: the driver-based stepper
    `myStepper` with its Hall-sensor-gated extend and open-loop retract,
    the simulated `dummyStepper` and `dummySpeaker`, and the uniform
    `loop` / `s_finish` dispatch of the `Device` base class.

    Outside inputs are parameters: `analogRead(hallPin)` results are a
    sequence of readings and `micros()` results a sequence of clock
    values, each consumed in order. Outputs (pin writes, delays, prints)
    are appended to the object's `trace`. */
module Devices {
  import opened Arith
  import opened Events
  import opened Phases
  import opened Timing

  /** `FULLSTP_PER_ROTATION`: full steps per motor revolution. */
  const FullStepsPerRotation: int := 200

  /** The position flag `stprState`, which only ever holds
      "RETRACTED" or "EXTENDED". */
  datatype StepperState = Retracted | Extended

  /** Whole full steps in `reverseRotDeg` degrees: the floor of
      `reverseRotDeg / 360 * FULLSTP_PER_ROTATION`. */
  function FullSteps(reverseRotDeg: int): (q: int)
    ensures q * 360 <= reverseRotDeg * FullStepsPerRotation < q * 360 + 360
  {
    DivBounds(reverseRotDeg * FullStepsPerRotation, 360);
    (reverseRotDeg * FullStepsPerRotation) / 360
  }

  /** `numReverseSteps`: the pulses one retraction issues, the whole full
      steps in the retract angle times the microstep divisor. */
  function RetractSteps(reverseRotDeg: int, microstep: int): (n: int)
    ensures microstep != 0 ==>
              n % microstep == 0 &&
              (n / microstep) * 360 <= reverseRotDeg * FullStepsPerRotation < (n / microstep) * 360 + 360
  {
    var q := FullSteps(reverseRotDeg);
    if microstep != 0 then
      MultipleDiv(q, microstep);
      q * microstep
    else q * microstep
  }

  /** Half a turn at microstep divisor 4 is 100 full steps, 400 pulses. */
  lemma RetractStepsExample()
    ensures RetractSteps(180, 4) == 400
  {
  }

  /** One `rotate_one_step`: `stpPin` HIGH, wait, `stpPin` LOW, wait. */
  function StepPulse(stpPin: int, halfUs: int): seq<Event>
  {
    [DigitalWrite(stpPin, HIGH), DelayMicroseconds(halfUs), DigitalWrite(stpPin, LOW), DelayMicroseconds(halfUs)]
  }

  /** `k` repetitions of `rotate_one_step(); delay(1);`. */
  function Pulses(stpPin: int, halfUs: int, k: nat): seq<Event>
  {
    if k == 0 then [] else Pulses(stpPin, halfUs, k - 1) + StepPulse(stpPin, halfUs) + [Delay(1)]
  }

  /** A pulse train of k pulses has five events per pulse and drives the
      step pin HIGH exactly k times. */
  lemma {:induction false} PulsesCount(stpPin: int, halfUs: int, k: nat)
    ensures |Pulses(stpPin, halfUs, k)| == 5 * k
    ensures RisingEdges(Pulses(stpPin, halfUs, k), stpPin) == k
  {
    if k > 0 {
      PulsesCount(stpPin, halfUs, k - 1);
      var tail := StepPulse(stpPin, halfUs) + [Delay(1)];
      assert Pulses(stpPin, halfUs, k) == Pulses(stpPin, halfUs, k - 1) + tail;
      RisingEdgesAppend(Pulses(stpPin, halfUs, k - 1), tail, stpPin);
      PulseRisesOnce(stpPin, halfUs);
    }
  }

  /** One pulse followed by its 1 ms wait drives the step pin HIGH once. */
  lemma PulseRisesOnce(stpPin: int, halfUs: int)
    ensures RisingEdges(StepPulse(stpPin, halfUs) + [Delay(1)], stpPin) == 1
  {
    var t := StepPulse(stpPin, halfUs) + [Delay(1)];
    assert t[..1][..0] == [];
    assert RisingEdges(t[..1], stpPin) == 1;
    assert t[..2][..1] == t[..1];
    assert RisingEdges(t[..2], stpPin) == 1;
    assert t[..3][..2] == t[..2];
    assert RisingEdges(t[..3], stpPin) == 1;
    assert t[..4][..3] == t[..3];
    assert RisingEdges(t[..4], stpPin) == 1;
    assert t[..5][..4] == t[..4] && t[..5] == t;
  }

  /** Index of the first Hall reading at or below the threshold: the
      number of readings `fwd` finds above it before it stops. */
  function FirstAtOrBelow(readings: seq<int>, hallThresh: int): (k: nat)
    ensures k <= |readings|
    ensures forall i :: 0 <= i < k ==> readings[i] > hallThresh
    ensures k < |readings| ==> readings[k] <= hallThresh
    ensures (exists i :: 0 <= i < |readings| && readings[i] <= hallThresh) ==> k < |readings|
  {
    if readings == [] || readings[0] <= hallThresh then 0
    else 1 + FirstAtOrBelow(readings[1..], hallThresh)
  }

  /** Some reading reaches the threshold, so that the extend loop ends. */
  predicate ReachesThreshold(readings: seq<int>, hallThresh: int)
  {
    exists i :: 0 <= i < |readings| && readings[i] <= hallThresh
  }

  /** `myStepper`: a stepper driven through a step/direction driver, with
      the stepping fields of the Arduino Stepper library. */
  class Stepper {
    // Configuration, fixed after construction.
    const stpPin: int
    const dirPin: int
    const hallPin: int
    const hallThresh: int
    const hallVal: int
    const microstep: int
    const reverseRotDeg: int
    const numReverseSteps: int
    /** Never assigned: the constructor assigns the member to itself. */
    var stepHalfDelay: int

    // Stepping fields of the Stepper library part.
    const numberOfSteps: int
    const pinCount: int
    const motorPins: seq<int>      // motor_pin_1 .. motor_pin_5
    var direction: int
    var stepDelay: ULong
    var stepNumber: int
    var lastStepTime: ULong

    /** The flag `stprState`. */
    var stprState: StepperState

    /** Everything written to pins, waited and printed so far. */
    var trace: seq<Event>

    ghost predicate Valid()
      reads this
    {
      && numberOfSteps > 0
      && 0 <= stepNumber < numberOfSteps
      && |motorPins| == 5
      && microstep != 0
    }

    /** Microseconds each half of a pulse lasts: `stepHalfDelay / microstep`. */
    function HalfPulse(): int
      reads this
      requires microstep != 0
    {
      TruncDiv(stepHalfDelay, microstep)
    }

    /** Trace of one extension that sees `k` readings above the threshold. */
    function ExtendTrace(k: nat): seq<Event>
      reads this
      requires microstep != 0
    {
      [DigitalWrite(dirPin, HIGH)] + Pulses(stpPin, HalfPulse(), k) + [Log("stepper extended")]
    }

    /** Trace of one retraction. */
    function RetractTrace(): seq<Event>
      reads this
      requires microstep != 0
    {
      [DigitalWrite(dirPin, LOW)]
      + Pulses(stpPin, HalfPulse(), if numReverseSteps > 0 then numReverseSteps else 0)
      + [Log("stepper retracted")]
    }

    /** The live constructor. The stepping fields it leaves uninitialised
        (`number_of_steps`, `pin_count`, `step_number`, `last_step_time`,
        `direction`, `step_delay`, the motor pins) are parameters holding
        whatever those fields contain. */
    constructor (stpPin: int, dirPin: int, hallPin: int, hallThresh: int, hallVal: int,
                 stepHalfdelay: int, microstep: int, reverseRotDeg: int,
                 numberOfSteps: int, pinCount: int, motorPins: seq<int>,
                 stepNumber: int, direction: int, lastStepTime: ULong, stepDelay: ULong)
      requires numberOfSteps > 0 && 0 <= stepNumber < numberOfSteps
      requires |motorPins| == 5 && microstep != 0
      ensures Valid()
      ensures this.stpPin == stpPin && this.dirPin == dirPin && this.hallPin == hallPin
      ensures this.hallThresh == hallThresh && this.hallVal == hallVal
      ensures this.microstep == microstep && this.reverseRotDeg == reverseRotDeg
      ensures numReverseSteps == RetractSteps(reverseRotDeg, microstep)
      ensures this.numberOfSteps == numberOfSteps && this.pinCount == pinCount && this.motorPins == motorPins
      ensures this.stepNumber == stepNumber && this.direction == direction
      ensures this.lastStepTime == lastStepTime && this.stepDelay == stepDelay
      ensures stprState == Retracted
      ensures trace == []
    {
      this.stpPin := stpPin;
      this.dirPin := dirPin;
      this.hallPin := hallPin;
      this.hallThresh := hallThresh;
      this.hallVal := hallVal;
      this.microstep := microstep;
      this.reverseRotDeg := reverseRotDeg;
      this.numReverseSteps := RetractSteps(reverseRotDeg, microstep);
      this.numberOfSteps := numberOfSteps;
      this.pinCount := pinCount;
      this.motorPins := motorPins;
      this.stepNumber := stepNumber;
      this.direction := direction;
      this.lastStepTime := lastStepTime;
      this.stepDelay := stepDelay;
      stprState := Retracted;
      trace := [];
    }

    /** `rotate_one_step`: one symmetric pulse on the step pin. */
    method RotateOneStep()
      requires Valid()
      modifies this`trace
      ensures trace == old(trace) + StepPulse(stpPin, HalfPulse())
    {
      trace := trace + [DigitalWrite(stpPin, HIGH)];
      trace := trace + [DelayMicroseconds(TruncDiv(stepHalfDelay, microstep))];
      trace := trace + [DigitalWrite(stpPin, LOW)];
      trace := trace + [DelayMicroseconds(TruncDiv(stepHalfDelay, microstep))];
    }

    /** `fwd`: direction pin HIGH, then one pulse and a 1 ms wait for each
        Hall reading above the threshold; it stops at the first reading at
        or below it, and the stepper is extended. Returns how many readings
        it took. */
    method Fwd(readings: seq<int>) returns (taken: nat)
      requires Valid()
      requires ReachesThreshold(readings, hallThresh)
      modifies this`trace, this`stprState
      ensures taken == FirstAtOrBelow(readings, hallThresh) + 1 && taken <= |readings|
      ensures trace == old(trace) + ExtendTrace(FirstAtOrBelow(readings, hallThresh))
      ensures stprState == Extended
    {
      trace := trace + [DigitalWrite(dirPin, HIGH)];
      var i := 0;
      while readings[i] > hallThresh
        invariant 0 <= i <= FirstAtOrBelow(readings, hallThresh) < |readings|
        invariant trace == old(trace) + [DigitalWrite(dirPin, HIGH)] + Pulses(stpPin, HalfPulse(), i)
        decreases |readings| - i
      {
        RotateOneStep();
        trace := trace + [Delay(1)];
        i := i + 1;
      }
      trace := trace + [Log("stepper extended")];
      stprState := Extended;
      taken := i + 1;
    }

    /** `back`: direction pin LOW, then exactly `numReverseSteps` pulses
        each followed by a 1 ms wait, whatever the sensor reads; the
        stepper is retracted. */
    method Back()
      requires Valid()
      modifies this`trace, this`stprState
      ensures trace == old(trace) + RetractTrace()
      ensures stprState == Retracted
    {
      trace := trace + [DigitalWrite(dirPin, LOW)];
      var i := 0;
      while i < numReverseSteps
        invariant 0 <= i && (numReverseSteps > 0 ==> i <= numReverseSteps)
        invariant numReverseSteps <= 0 ==> i == 0
        invariant trace == old(trace) + [DigitalWrite(dirPin, LOW)] + Pulses(stpPin, HalfPulse(), i)
      {
        RotateOneStep();
        trace := trace + [Delay(1)];
        i := i + 1;
      }
      trace := trace + [Log("stepper retracted")];
      stprState := Retracted;
    }

    /** `loop(fcnIdx)`: index 1 extends a retracted stepper; every other
        index, and index 1 on an extended stepper, does nothing. */
    method Loop(fcnIdx: int, readings: seq<int>) returns (taken: nat)
      requires Valid()
      requires fcnIdx == 1 && stprState == Retracted ==> ReachesThreshold(readings, hallThresh)
      modifies this`trace, this`stprState
      ensures fcnIdx == 1 && old(stprState) == Retracted ==>
                stprState == Extended &&
                trace == old(trace) + ExtendTrace(FirstAtOrBelow(readings, hallThresh)) &&
                taken == FirstAtOrBelow(readings, hallThresh) + 1
      ensures !(fcnIdx == 1 && old(stprState) == Retracted) ==>
                stprState == old(stprState) && trace == old(trace) && taken == 0
    {
      taken := 0;
      if fcnIdx == 0 {
      } else if fcnIdx == 1 {
        if stprState == Retracted {
          taken := Fwd(readings);
          stprState := Extended;
        }
      }
    }

    /** `s_finish`: retract an extended stepper; a retracted one is left as
        it is, so a second call after the first does nothing. */
    method SFinish()
      requires Valid()
      modifies this`trace, this`stprState
      ensures stprState == Retracted
      ensures old(stprState) == Extended ==> trace == old(trace) + RetractTrace()
      ensures old(stprState) == Retracted ==> trace == old(trace)
    {
      if stprState == Extended {
        Back();
      }
    }

    /** `setSpeed(whatSpeed)`: the inter-step delay for `whatSpeed`
        revolutions per minute. A zero speed divides by zero. */
    method SetSpeed(whatSpeed: int)
      requires Valid()
      requires whatSpeed != 0
      modifies this`stepDelay
      ensures stepDelay == SpeedToDelay(numberOfSteps, whatSpeed)
    {
      stepDelay := ToULong(TruncDiv(TruncDiv(MicrosPerMinute, numberOfSteps), whatSpeed));
    }

    /** `stepMotor(thisStep)`: write the table entry to the motor leads. */
    method StepMotor(thisStep: int)
      requires Valid()
      modifies this`trace
      ensures trace == old(trace) + StepMotorWrites(motorPins, pinCount, thisStep)
    {
      var levels := Pattern(pinCount, thisStep);
      var j := 0;
      while j < |levels|
        invariant 0 <= j <= |levels|
        invariant trace == old(trace) + LeadWrites(motorPins, levels, j)
      {
        trace := trace + [DigitalWrite(motorPins[j], levels[j])];
        j := j + 1;
      }
    }

    /** The counter update inside `step`: increment and wrap
        `number_of_steps` to 0 when `direction == 1`, otherwise wrap 0 to
        `number_of_steps` and decrement. */
    method MoveStepNumber()
      requires Valid()
      modifies this`stepNumber
      ensures Valid()
      ensures stepNumber == NextIndex(old(stepNumber), numberOfSteps, direction == 1)
    {
      if direction == 1 {
        stepNumber := stepNumber + 1;
        if stepNumber == numberOfSteps {
          stepNumber := 0;
        }
      } else {
        if stepNumber == 0 {
          stepNumber := numberOfSteps;
        }
        stepNumber := stepNumber - 1;
      }
    }

    /** One pass of the busy-wait in `step`, at clock reading `now`: if
        `step_delay` microseconds have passed since `last_step_time`, record
        the time, move the counter and apply its table entry. */
    method StepIfDue(now: ULong) returns (stepped: bool)
      requires Valid()
      modifies this`lastStepTime, this`stepNumber, this`trace
      ensures Valid()
      ensures stepped == (Elapsed(now, old(lastStepTime)) >= stepDelay)
      ensures stepped ==>
                && lastStepTime == now
                && stepNumber == NextIndex(old(stepNumber), numberOfSteps, direction == 1)
                && trace == old(trace) + StepMotorWrites(motorPins, pinCount, TableIndex(pinCount, stepNumber))
      ensures !stepped ==>
                lastStepTime == old(lastStepTime) && stepNumber == old(stepNumber) && trace == old(trace)
    {
      stepped := Elapsed(now, lastStepTime) >= stepDelay;
      if stepped {
        lastStepTime := now;
        MoveStepNumber();
        if pinCount == 5 {
          StepMotor(stepNumber % 10);
        } else {
          StepMotor(stepNumber % 4);
        }
      }
    }

    /** The state of `step` after polling the first `i` readings of
        `clock`, starting from index `start`, time `last0` and trace
        `prefix`: k steps have been taken, one per firing reading, the
        counter has moved k places and the trace has gained k table entries. */
    ghost predicate Progress(clock: seq<ULong>, i: nat, start: int, last0: ULong, forward: bool,
                             prefix: seq<Event>, k: nat)
      reads this
    {
      && Valid()
      && i <= |clock|
      && 0 <= start < numberOfSteps
      && (direction == 1 <==> forward)
      && |Fired(clock, i, last0, stepDelay)| == k
      && lastStepTime == LastOr(Fired(clock, i, last0, stepDelay), last0)
      && stepNumber == IndexAfter(start, numberOfSteps, forward, k)
      && trace == prefix + MotorWrites(motorPins, pinCount, start, numberOfSteps, forward, k)
    }

    /** One pass of the busy-wait of `step` at reading `clock[i]`, with the
        progress made so far: a firing reading adds one step, any other
        reading adds none. */
    method PollOnce(clock: seq<ULong>, i: nat, ghost start: int, ghost last0: ULong, ghost forward: bool,
                    ghost prefix: seq<Event>, ghost k: nat) returns (stepped: bool, ghost k': nat)
      requires i < |clock|
      requires Progress(clock, i, start, last0, forward, prefix, k)
      modifies this`lastStepTime, this`stepNumber, this`trace
      ensures k' == if stepped then k + 1 else k
      ensures Progress(clock, i + 1, start, last0, forward, prefix, k')
    {
      ghost var before := trace;
      stepped := StepIfDue(clock[i]);
      k' := if stepped then k + 1 else k;
      if stepped {
        MotorWritesStep(motorPins, pinCount, start, numberOfSteps, forward, k, prefix, before, trace);
      }
    }

    /** `step(stepsToMove)`: |stepsToMove| steps, forward when positive and
        reverse when negative, polling the clock readings `clock` in order
        and stepping only once `step_delay` microseconds have passed since
        the last step. Returns how many readings it polled: the loop stops
        at the reading that completes the last step. */
    method Step(stepsToMove: int, clock: seq<ULong>) returns (polled: nat)
      requires Valid()
      requires |Fired(clock, |clock|, lastStepTime, stepDelay)| >= Abs(stepsToMove)
      modifies this`direction, this`stepNumber, this`lastStepTime, this`trace
      ensures Valid()
      ensures direction == if stepsToMove > 0 then 1 else if stepsToMove < 0 then 0 else old(direction)
      ensures polled <= |clock|
      ensures |Fired(clock, polled, old(lastStepTime), stepDelay)| == Abs(stepsToMove)
      ensures stepsToMove == 0 ==> polled == 0
      ensures stepsToMove != 0 ==>
                polled > 0 && |Fired(clock, polled - 1, old(lastStepTime), stepDelay)| == Abs(stepsToMove) - 1
      ensures lastStepTime == LastOr(Fired(clock, polled, old(lastStepTime), stepDelay), old(lastStepTime))
      ensures stepNumber == IndexAfter(old(stepNumber), numberOfSteps, direction == 1, Abs(stepsToMove))
      ensures trace == old(trace) + MotorWrites(motorPins, pinCount, old(stepNumber), numberOfSteps,
                                                direction == 1, Abs(stepsToMove))
    {
      var stepsLeft := Abs(stepsToMove);
      if stepsToMove > 0 { direction := 1; }
      if stepsToMove < 0 { direction := 0; }
      polled := AwaitSteps(stepsLeft, clock);
    }

    /** The busy-wait of `step`: poll `clock` until `count` steps have been
        taken in the current direction. */
    method AwaitSteps(count: nat, clock: seq<ULong>) returns (polled: nat)
      requires Valid()
      requires |Fired(clock, |clock|, lastStepTime, stepDelay)| >= count
      modifies this`stepNumber, this`lastStepTime, this`trace
      ensures Progress(clock, polled, old(stepNumber), old(lastStepTime), direction == 1, old(trace), count)
      ensures count == 0 ==> polled == 0
      ensures count > 0 ==> polled > 0 && |Fired(clock, polled - 1, old(lastStepTime), stepDelay)| == count - 1
    {
      ghost var start, last0, prefix := stepNumber, lastStepTime, trace;
      ghost var forward := direction == 1;
      ghost var k: nat := 0;
      ghost var lastPoll: nat := 0;
      var stepsLeft := count;
      var i := 0;
      while stepsLeft > 0
        invariant Progress(clock, i, start, last0, forward, prefix, k)
        invariant 0 <= stepsLeft == count - k
        invariant count == 0 ==> i == 0
        invariant stepsLeft == 0 && count > 0 ==>
                    lastPoll + 1 == i && |Fired(clock, lastPoll, last0, stepDelay)| == count - 1
        decreases |clock| - i
      {
        FiredBeforeEnd(clock, i, last0, stepDelay);
        var stepped;
        stepped, k := PollOnce(clock, i, start, last0, forward, prefix, k);
        if stepped {
          stepsLeft := stepsLeft - 1;
          lastPoll := i;
        }
        i := i + 1;
      }
      polled := i;
    }
  }

  /** `dummyStepper`: a stand-in stepper with no hardware, only the
      position flag and a diagnostic print. */
  class DummyStepper {
    /** The flag `stprState`. */
    var stprState: StepperState
    /** Everything printed so far. */
    var trace: seq<Event>

    /** The constructor: the flag starts at "RETRACTED". */
    constructor ()
      ensures stprState == Retracted && trace == []
    {
      stprState := Retracted;
      trace := [];
    }

    /** `loop(fcnIdx)`: index 1 sets the flag to extended (it may already
        be) and prints a message; every other index does nothing. */
    method Loop(fcnIdx: int)
      modifies this`stprState, this`trace
      ensures fcnIdx == 1 ==> stprState == Extended && trace == old(trace) + [Log("I extended a stepper!")]
      ensures fcnIdx != 1 ==> stprState == old(stprState) && trace == old(trace)
    {
      if fcnIdx == 0 {
      } else if fcnIdx == 1 {
        if stprState == Retracted {
          stprState := Extended;
        }
        trace := trace + [Log("I extended a stepper!")];
      }
    }

    /** `s_finish`: the flag goes back to "RETRACTED", whatever it was. */
    method SFinish()
      modifies this`stprState
      ensures stprState == Retracted
    {
      stprState := Retracted;
    }
  }

  /** `dummySpeaker`: a stand-in speaker that only prints. */
  class DummySpeaker {
    /** Everything printed so far. */
    var trace: seq<Event>

    constructor ()
      ensures trace == []
    {
      trace := [];
    }

    /** `loop(fcnIdx)`: index 1 prints a message, every other index does
        nothing. */
    method Loop(fcnIdx: int)
      modifies this`trace
      ensures fcnIdx == 1 ==> trace == old(trace) + [Log("I'm playing a tone!")]
      ensures fcnIdx != 1 ==> trace == old(trace)
    {
      if fcnIdx == 0 {
      } else if fcnIdx == 1 {
        trace := trace + [Log("I'm playing a tone!")];
      }
    }

    /** `s_finish`: does nothing. */
    method SFinish()
      ensures trace == old(trace)
    {
    }
  }

  /** A `Device*`: one of the concrete devices behind the abstract
      `Device` interface, on which `loop` and `s_finish` dispatch. */
  datatype Device =
    | DummyStepperDevice(dummyStepper: DummyStepper)
    | DummySpeakerDevice(dummySpeaker: DummySpeaker)
    | StepperDevice(stepper: Stepper)

  /** The object a device value refers to. */
  function Target(d: Device): set<object>
  {
    match d
    case DummyStepperDevice(ds) => {ds}
    case DummySpeakerDevice(sp) => {sp}
    case StepperDevice(st) => {st}
  }

  /** What the hardware stepper needs to run `loop(fcnIdx)`: a valid
      state, and a reading that ends the extension when it extends. */
  ghost predicate ReadyForLoop(d: Device, fcnIdx: int, readings: seq<int>)
    reads Target(d)
  {
    d.StepperDevice? ==>
      d.stepper.Valid() &&
      (fcnIdx == 1 && d.stepper.stprState == Retracted ==> ReachesThreshold(readings, d.stepper.hallThresh))
  }

  /** The hardware stepper's fields that neither `loop` nor `s_finish`
      touches: the stepping engine and the never-set `stepHalfDelay`. */
  twostate predicate EngineUnchanged(st: Stepper)
    reads st
  {
    unchanged(st`stepHalfDelay, st`direction, st`stepDelay, st`stepNumber, st`lastStepTime)
  }

  /** `device->loop(fcnIdx)`: each device does what its own `loop` does.
      Every index other than 1 does nothing. Index 1 extends a retracted
      hardware stepper as `fwd` does and leaves an extended one untouched;
      the dummy stepper sets its flag and prints; the dummy speaker
      prints. The Hall readings `readings` are only read by the hardware
      stepper. */
  method DeviceLoop(d: Device, fcnIdx: int, readings: seq<int>) returns (taken: nat)
    requires ReadyForLoop(d, fcnIdx, readings)
    modifies Target(d)
    ensures fcnIdx != 1 ==> unchanged(Target(d)) && taken == 0
    ensures !d.StepperDevice? ==> taken == 0
    ensures d.StepperDevice? ==> d.stepper.Valid() && EngineUnchanged(d.stepper)
    ensures fcnIdx == 1 && d.StepperDevice? && old(d.stepper.stprState) == Retracted ==>
              d.stepper.stprState == Extended &&
              d.stepper.trace == old(d.stepper.trace) + d.stepper.ExtendTrace(FirstAtOrBelow(readings, d.stepper.hallThresh)) &&
              taken == FirstAtOrBelow(readings, d.stepper.hallThresh) + 1
    ensures fcnIdx == 1 && d.StepperDevice? && old(d.stepper.stprState) == Extended ==>
              unchanged(Target(d)) && taken == 0
    ensures fcnIdx == 1 && d.DummyStepperDevice? ==>
              d.dummyStepper.stprState == Extended &&
              d.dummyStepper.trace == old(d.dummyStepper.trace) + [Log("I extended a stepper!")]
    ensures fcnIdx == 1 && d.DummySpeakerDevice? ==>
              d.dummySpeaker.trace == old(d.dummySpeaker.trace) + [Log("I'm playing a tone!")]
  {
    taken := 0;
    match d
    case DummyStepperDevice(ds) =>
      ds.Loop(fcnIdx);
    case DummySpeakerDevice(sp) =>
      sp.Loop(fcnIdx);
    case StepperDevice(st) =>
      taken := st.Loop(fcnIdx, readings);
  }

  /** `device->s_finish()`: at the end of a stimulus period every stepper,
      real or dummy, is retracted. A hardware stepper that was extended
      is driven back as `back` does; one that was retracted is left
      untouched, as is a speaker. The dummy devices print nothing. */
  method DeviceSFinish(d: Device)
    requires d.StepperDevice? ==> d.stepper.Valid()
    modifies Target(d)
    ensures d.DummyStepperDevice? ==>
              d.dummyStepper.stprState == Retracted && d.dummyStepper.trace == old(d.dummyStepper.trace)
    ensures d.StepperDevice? ==>
              d.stepper.stprState == Retracted && d.stepper.Valid() && EngineUnchanged(d.stepper)
    ensures d.StepperDevice? && old(d.stepper.stprState) == Extended ==>
              d.stepper.trace == old(d.stepper.trace) + d.stepper.RetractTrace()
    ensures d.StepperDevice? && old(d.stepper.stprState) == Retracted ==> unchanged(Target(d))
    ensures d.DummySpeakerDevice? ==> unchanged(Target(d))
  {
    match d
    case DummyStepperDevice(ds) =>
      ds.SFinish();
    case DummySpeakerDevice(sp) =>
      sp.SFinish();
    case StepperDevice(st) =>
      st.SFinish();
  }

  /** Through the interface, `s_finish` is idempotent on every device: a
      second call finds every stepper retracted and changes nothing. */
  method DeviceSFinishTwice(d: Device)
    requires d.StepperDevice? ==> d.stepper.Valid()
    modifies Target(d)
    ensures d.StepperDevice? ==>
              d.stepper.stprState == Retracted &&
              d.stepper.trace == old(d.stepper.trace)
                                 + (if old(d.stepper.stprState) == Extended then d.stepper.RetractTrace() else [])
    ensures d.DummyStepperDevice? ==>
              d.dummyStepper.stprState == Retracted && d.dummyStepper.trace == old(d.dummyStepper.trace)
    ensures d.DummySpeakerDevice? ==> unchanged(Target(d))
  {
    DeviceSFinish(d);
    DeviceSFinish(d);
  }

  /** Through the interface, `loop(1)` on the hardware stepper is
      idempotent: the second call finds it extended, reads no sensor and
      writes nothing. */
  method DeviceLoopTwice(d: Device, readings: seq<int>, more: seq<int>) returns (taken: nat)
    requires d.StepperDevice? && d.stepper.Valid() && d.stepper.stprState == Retracted
    requires ReachesThreshold(readings, d.stepper.hallThresh)
    modifies Target(d)
    ensures d.stepper.stprState == Extended
    ensures d.stepper.trace == old(d.stepper.trace) + d.stepper.ExtendTrace(FirstAtOrBelow(readings, d.stepper.hallThresh))
    ensures taken == 0
  {
    taken := DeviceLoop(d, 1, readings);
    taken := DeviceLoop(d, 1, more);
  }

  /** Two `s_finish` calls in a row retract once: the second call finds
      the stepper retracted and writes nothing. */
  method SFinishTwice(st: Stepper)
    requires st.Valid()
    modifies st`trace, st`stprState
    ensures st.stprState == Retracted
    ensures st.trace == old(st.trace) + (if old(st.stprState) == Extended then st.RetractTrace() else [])
  {
    st.SFinish();
    ghost var once := st.trace;
    st.SFinish();
    assert st.trace == once;
  }

  /** Two `loop(1)` calls in a row extend once: the second call finds the
      stepper extended and does nothing. */
  method LoopTwice(st: Stepper, readings: seq<int>, more: seq<int>)
    requires st.Valid() && st.stprState == Retracted && ReachesThreshold(readings, st.hallThresh)
    modifies st`trace, st`stprState
    ensures st.stprState == Extended
    ensures st.trace == old(st.trace) + st.ExtendTrace(FirstAtOrBelow(readings, st.hallThresh))
  {
    var taken := st.Loop(1, readings);
    ghost var once := st.trace;
    taken := st.Loop(1, more);
    assert st.trace == once && taken == 0;
  }
}
