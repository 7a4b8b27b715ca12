/** The step timing engine of `myStepper`: the wrapping step counter of
    `step`, the clock gate that spaces steps by `step_delay`, the table
    entry each step applies, and the speed-to-delay conversion of
    `setSpeed`. */
module Timing {
  import opened Arith
  import opened Events
  import opened Phases

  /** Microseconds per minute, the numerator of `setSpeed`. */
  const MicrosPerMinute: int := 60 * 1000 * 1000

  /** The step index after one step of `step`: forward increments and
      wraps `numberOfSteps` to 0; reverse wraps 0 to `numberOfSteps` and
      then decrements. */
  function NextIndex(stepNumber: int, numberOfSteps: int, forward: bool): (r: int)
    requires 0 <= stepNumber < numberOfSteps
    ensures 0 <= r < numberOfSteps
  {
    if forward then
      var n := stepNumber + 1;
      if n == numberOfSteps then 0 else n
    else
      var n := if stepNumber == 0 then numberOfSteps else stepNumber;
      n - 1
  }

  /** One step moves the index by one, modulo the number of steps. */
  lemma NextIndexMod(stepNumber: int, numberOfSteps: int, forward: bool)
    requires 0 <= stepNumber < numberOfSteps
    ensures forward ==> NextIndex(stepNumber, numberOfSteps, forward) == (stepNumber + 1) % numberOfSteps
    ensures !forward ==> NextIndex(stepNumber, numberOfSteps, forward) == (stepNumber - 1) % numberOfSteps
  {
    if forward {
      DivUnique(stepNumber + 1, numberOfSteps, if stepNumber + 1 == numberOfSteps then 1 else 0);
    } else {
      DivUnique(stepNumber - 1, numberOfSteps, if stepNumber == 0 then -1 else 0);
    }
  }

  /** A forward step undoes a reverse step and vice versa. */
  lemma StepThenStepBack(stepNumber: int, numberOfSteps: int, forward: bool)
    requires 0 <= stepNumber < numberOfSteps
    ensures NextIndex(NextIndex(stepNumber, numberOfSteps, forward), numberOfSteps, !forward) == stepNumber
  {
  }

  /** The step index after `k` steps in one direction. */
  function IndexAfter(stepNumber: int, numberOfSteps: int, forward: bool, k: nat): (r: int)
    requires 0 <= stepNumber < numberOfSteps
    ensures 0 <= r < numberOfSteps
  {
    if k == 0 then stepNumber
    else NextIndex(IndexAfter(stepNumber, numberOfSteps, forward, k - 1), numberOfSteps, forward)
  }

  /** Adding one after reducing modulo n: (x mod n) + 1 has the residue of x + 1. */
  lemma ModSucc(x: int, n: int)
    requires n > 0
    ensures (x % n + 1) % n == (x + 1) % n
  {
    var q := x / n;
    assert x == q * n + x % n;
    assert x + 1 == q * n + (x % n + 1);
    ModShift(x % n + 1, q, n);
  }

  /** Subtracting one after reducing modulo n: (x mod n) - 1 has the residue of x - 1. */
  lemma ModPred(x: int, n: int)
    requires n > 0
    ensures (x % n - 1) % n == (x - 1) % n
  {
    var q := x / n;
    assert x == q * n + x % n;
    assert x - 1 == q * n + (x % n - 1);
    ModShift(x % n - 1, q, n);
  }

  /** Adding a multiple of n does not change the residue. */
  lemma ModShift(y: int, q: int, n: int)
    requires n > 0
    ensures (q * n + y) % n == y % n
  {
    var r := y % n;
    assert y == (y / n) * n + r;
    assert q * n + y == (q + y / n) * n + r by {
      assert (q + y / n) * n == q * n + (y / n) * n;
    }
    DivUnique(q * n + y, n, q + y / n);
  }

  /** Closed form of the counter: after k forward steps the index is
      (i + k) mod n, after k reverse steps (i - k) mod n. In particular a
      full turn of `numberOfSteps` steps comes back to the start. */
  lemma {:induction false} IndexAfterClosedForm(stepNumber: int, numberOfSteps: int, forward: bool, k: nat)
    requires 0 <= stepNumber < numberOfSteps
    ensures forward ==> IndexAfter(stepNumber, numberOfSteps, true, k) == (stepNumber + k) % numberOfSteps
    ensures !forward ==> IndexAfter(stepNumber, numberOfSteps, false, k) == (stepNumber - k) % numberOfSteps
  {
    if k == 0 {
      DivUnique(stepNumber, numberOfSteps, 0);
    } else {
      IndexAfterClosedForm(stepNumber, numberOfSteps, forward, k - 1);
      NextIndexMod(IndexAfter(stepNumber, numberOfSteps, forward, k - 1), numberOfSteps, forward);
      if forward {
        ModSucc(stepNumber + k - 1, numberOfSteps);
      } else {
        ModPred(stepNumber - (k - 1), numberOfSteps);
      }
    }
  }

  /** The table entry `step` hands to `stepMotor`: `step_number % 10` for
      five leads, `step_number % 4` otherwise. */
  function TableIndex(pinCount: int, stepNumber: nat): (t: nat)
    ensures t < CycleLength(pinCount)
  {
    if pinCount == 5 then stepNumber % 10 else stepNumber % 4
  }

  /** When the table length divides `numberOfSteps`, a forward step moves
      to the next table entry, wrapping included, and a reverse step to the
      previous one: the motor walks the phase cycle in order. */
  lemma TableIndexAdvances(pinCount: int, stepNumber: int, numberOfSteps: int)
    requires 0 <= stepNumber < numberOfSteps
    requires numberOfSteps % CycleLength(pinCount) == 0
    ensures TableIndex(pinCount, NextIndex(stepNumber, numberOfSteps, true))
            == Successor(pinCount, TableIndex(pinCount, stepNumber))
    ensures Successor(pinCount, TableIndex(pinCount, NextIndex(stepNumber, numberOfSteps, false)))
            == TableIndex(pinCount, stepNumber)
  {
    ForwardTableIndex(pinCount, stepNumber, numberOfSteps);
    var back := NextIndex(stepNumber, numberOfSteps, false);
    ForwardTableIndex(pinCount, back, numberOfSteps);
    StepThenStepBack(stepNumber, numberOfSteps, false);
  }

  lemma ForwardTableIndex(pinCount: int, stepNumber: int, numberOfSteps: int)
    requires 0 <= stepNumber < numberOfSteps
    requires numberOfSteps % CycleLength(pinCount) == 0
    ensures TableIndex(pinCount, NextIndex(stepNumber, numberOfSteps, true))
            == Successor(pinCount, TableIndex(pinCount, stepNumber))
  {
    var m := CycleLength(pinCount);
    if stepNumber + 1 < numberOfSteps {
      ModSucc(stepNumber, m);
    } else {
      var q := numberOfSteps / m;
      DivBounds(numberOfSteps, m);
      assert stepNumber == (q - 1) * m + (m - 1);
      DivUnique(stepNumber, m, q - 1);
    }
  }

  /** Consequently, on such a motor every step changes exactly one lead
      (2 and 5 leads) or two leads (4 leads), in either direction. */
  lemma StepChangesLeads(pinCount: int, stepNumber: int, numberOfSteps: int, forward: bool)
    requires HasTable(pinCount) && 0 <= stepNumber < numberOfSteps
    requires numberOfSteps % CycleLength(pinCount) == 0
    ensures var next := NextIndex(stepNumber, numberOfSteps, forward);
            Distance(Pattern(pinCount, TableIndex(pinCount, stepNumber)), Pattern(pinCount, TableIndex(pinCount, next)))
            == if pinCount == 4 then 2 else 1
  {
    TableIndexAdvances(pinCount, stepNumber, numberOfSteps);
    var t := TableIndex(pinCount, stepNumber);
    var u := TableIndex(pinCount, NextIndex(stepNumber, numberOfSteps, forward));
    if forward {
      AdjacentEntriesDiffer(pinCount, t);
    } else {
      AdjacentEntriesDiffer(pinCount, u);
      DistanceSymmetric(Pattern(pinCount, u), Pattern(pinCount, t));
    }
  }

  /** When the table length does not divide `numberOfSteps`, the wrap of
      the counter breaks the cycle: on a 4-lead motor with 5 steps, the
      step from index 4 to index 0 applies entry 0 twice in a row and
      changes no lead. */
  lemma WrapRepeatsEntry()
    ensures NextIndex(4, 5, true) == 0
    ensures TableIndex(4, NextIndex(4, 5, true)) == TableIndex(4, 4)
    ensures Distance(Pattern(4, TableIndex(4, 4)), Pattern(4, TableIndex(4, NextIndex(4, 5, true)))) == 0
  {
  }

  /** Pin writes of `k` steps of `step` from index `stepNumber`: each step
      applies the table entry of the index it moves to. */
  function MotorWrites(pins: seq<int>, pinCount: int, stepNumber: int, numberOfSteps: int, forward: bool, k: nat): seq<Event>
    requires |pins| == 5 && 0 <= stepNumber < numberOfSteps
  {
    if k == 0 then []
    else MotorWrites(pins, pinCount, stepNumber, numberOfSteps, forward, k - 1)
         + StepMotorWrites(pins, pinCount, TableIndex(pinCount, IndexAfter(stepNumber, numberOfSteps, forward, k)))
  }

  /** The trace after one more step extends the trace after k steps by
      that step's table entry. */
  lemma MotorWritesStep(pins: seq<int>, pinCount: int, stepNumber: int, numberOfSteps: int, forward: bool, k: nat,
                        prefix: seq<Event>, before: seq<Event>, after: seq<Event>)
    requires |pins| == 5 && 0 <= stepNumber < numberOfSteps
    requires before == prefix + MotorWrites(pins, pinCount, stepNumber, numberOfSteps, forward, k)
    requires after == before + StepMotorWrites(pins, pinCount,
                                 TableIndex(pinCount, IndexAfter(stepNumber, numberOfSteps, forward, k + 1)))
    ensures after == prefix + MotorWrites(pins, pinCount, stepNumber, numberOfSteps, forward, k + 1)
  {
  }

  /** k steps write k table entries: `pinCount` writes per step for a
      topology with a table, none otherwise. */
  lemma {:induction false} MotorWritesLength(pins: seq<int>, pinCount: int, stepNumber: int, numberOfSteps: int, forward: bool, k: nat)
    requires |pins| == 5 && 0 <= stepNumber < numberOfSteps
    ensures |MotorWrites(pins, pinCount, stepNumber, numberOfSteps, forward, k)|
            == if HasTable(pinCount) then k * pinCount else 0
  {
    if k > 0 {
      MotorWritesLength(pins, pinCount, stepNumber, numberOfSteps, forward, k - 1);
      StepMotorWritesEachLead(pins, pinCount, TableIndex(pinCount, IndexAfter(stepNumber, numberOfSteps, forward, k)));
    }
  }

  /** The last element of a sequence of timestamps, or `d` when empty. */
  function LastOr(s: seq<ULong>, d: ULong): ULong
  {
    if s == [] then d else s[|s| - 1]
  }

  /** The clock readings, among the first `n` of `clock`, at which the
      busy-wait of `step` takes a step when it polls `micros()` and reads
      `clock` in order, starting with `last_step_time == last`: a reading
      fires when at least `delay` microseconds (modulo 2^32) have passed
      since the previous firing. */
  function Fired(clock: seq<ULong>, n: nat, last: ULong, delay: ULong): (f: seq<ULong>)
    requires n <= |clock|
    ensures |f| <= n
  {
    if n == 0 then []
    else
      var prev := Fired(clock, n - 1, last, delay);
      var now := clock[n - 1];
      if Elapsed(now, LastOr(prev, last)) >= delay then prev + [now] else prev
  }

  /** Fewer firings than the whole of `clock` yields means readings remain. */
  lemma FiredBeforeEnd(clock: seq<ULong>, n: nat, last: ULong, delay: ULong)
    requires n <= |clock|
    requires |Fired(clock, n, last, delay)| < |Fired(clock, |clock|, last, delay)|
    ensures n < |clock|
  {
  }

  /** Every firing is one of the polled readings, and it comes at least
      `delay` microseconds (modulo 2^32) after the firing before it, the
      first one at least `delay` after `last`: steps are never closer than
      the configured delay. */
  lemma {:induction false} FiredSpaced(clock: seq<ULong>, n: nat, last: ULong, delay: ULong, i: nat)
    requires n <= |clock|
    requires i < |Fired(clock, n, last, delay)|
    ensures Fired(clock, n, last, delay)[i] in clock[..n]
    ensures Elapsed(Fired(clock, n, last, delay)[i], if i == 0 then last else Fired(clock, n, last, delay)[i - 1]) >= delay
  {
    var prev := Fired(clock, n - 1, last, delay);
    if i < |prev| {
      FiredSpaced(clock, n - 1, last, delay, i);
      assert clock[..n - 1] <= clock[..n];
    } else {
      assert clock[..n][n - 1] == clock[n - 1];
    }
  }

  /** The inter-step delay `setSpeed(whatSpeed)` stores:
      `60L * 1000L * 1000L / number_of_steps / whatSpeed`, two truncating
      divisions, the result reduced to `unsigned long`. For a positive
      speed it is the whole number of microseconds in one step at that
      speed. */
  function SpeedToDelay(numberOfSteps: int, whatSpeed: int): (d: ULong)
    requires numberOfSteps != 0 && whatSpeed != 0
    ensures numberOfSteps > 0 && whatSpeed > 0 ==>
              d == MicrosPerMinute / (numberOfSteps * whatSpeed) &&
              d * numberOfSteps * whatSpeed <= MicrosPerMinute < (d + 1) * numberOfSteps * whatSpeed
  {
    var r := ToULong(TruncDiv(TruncDiv(MicrosPerMinute, numberOfSteps), whatSpeed));
    if numberOfSteps > 0 && whatSpeed > 0 then
      PositiveSpeedDelay(numberOfSteps, whatSpeed);
      r
    else r
  }

  /** For a positive motor size and speed the two truncating divisions are
      one floor division by the product, whose result fits an
      `unsigned long` and brackets the minute. */
  lemma PositiveSpeedDelay(numberOfSteps: int, whatSpeed: int)
    requires numberOfSteps > 0 && whatSpeed > 0
    ensures var q := TruncDiv(TruncDiv(MicrosPerMinute, numberOfSteps), whatSpeed);
            && q == MicrosPerMinute / (numberOfSteps * whatSpeed)
            && 0 <= q < TwoPow32
            && q * numberOfSteps * whatSpeed <= MicrosPerMinute < (q + 1) * numberOfSteps * whatSpeed
  {
    var q1 := TruncDiv(MicrosPerMinute, numberOfSteps);
    TruncDivNonNegative(MicrosPerMinute, numberOfSteps);
    TruncDivNonNegative(q1, whatSpeed);
    var p := numberOfSteps * whatSpeed;
    DivDiv(MicrosPerMinute, numberOfSteps, whatSpeed);
    var q := MicrosPerMinute / p;
    DivBounds(MicrosPerMinute, p);
    MulAtLeast(whatSpeed, numberOfSteps);
    assert q * numberOfSteps * whatSpeed == q * p && (q + 1) * numberOfSteps * whatSpeed == (q + 1) * p by {
      MulAssoc(q, numberOfSteps, whatSpeed);
      MulAssoc(q + 1, numberOfSteps, whatSpeed);
    }
    if q > 0 {
      MulAtLeast(p, q);
    }
  }

  /** Multiplication is associative. */
  lemma MulAssoc(x: int, y: int, z: int)
    ensures x * y * z == x * (y * z)
  {
  }

  /** 60 revolutions per minute on a 200-step motor: 5000 microseconds per step. */
  lemma SpeedExample()
    ensures SpeedToDelay(200, 60) == 5000
  {
  }
}
