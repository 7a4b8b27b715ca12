/** The phase-pattern table of `myStepper::stepMotor`: for a winding
    topology (2, 4 or 5 motor leads) and a step index, the level written
    to each lead, in lead order. */
module Phases {
  import opened Events

  /** The topologies that have a table. */
  predicate HasTable(pinCount: int)
  {
    pinCount == 2 || pinCount == 4 || pinCount == 5
  }

  /** Number of entries in a topology's table: ten for 5 leads, four otherwise. */
  function CycleLength(pinCount: int): nat
  {
    if pinCount == 5 then 10 else 4
  }

  /** Whether `stepMotor(thisStep)` reaches a case of its switch. */
  predicate InTable(pinCount: int, thisStep: int)
  {
    HasTable(pinCount) && 0 <= thisStep < CycleLength(pinCount)
  }

  /** Levels written to motor leads 1, 2, ... by `stepMotor(thisStep)`;
      empty when no case of the switch matches. */
  function Pattern(pinCount: int, thisStep: int): (levels: seq<bool>)
    ensures InTable(pinCount, thisStep) ==> |levels| == pinCount
    ensures !InTable(pinCount, thisStep) ==> levels == []
  {
    if pinCount == 2 then
      match thisStep
      case 0 => [LOW, HIGH]
      case 1 => [HIGH, HIGH]
      case 2 => [HIGH, LOW]
      case 3 => [LOW, LOW]
      case _ => []
    else if pinCount == 4 then
      match thisStep
      case 0 => [HIGH, LOW, HIGH, LOW]
      case 1 => [LOW, HIGH, HIGH, LOW]
      case 2 => [LOW, HIGH, LOW, HIGH]
      case 3 => [HIGH, LOW, LOW, HIGH]
      case _ => []
    else if pinCount == 5 then
      match thisStep
      case 0 => [LOW, HIGH, HIGH, LOW, HIGH]
      case 1 => [LOW, HIGH, LOW, LOW, HIGH]
      case 2 => [LOW, HIGH, LOW, HIGH, HIGH]
      case 3 => [LOW, HIGH, LOW, HIGH, LOW]
      case 4 => [HIGH, HIGH, LOW, HIGH, LOW]
      case 5 => [HIGH, LOW, LOW, HIGH, LOW]
      case 6 => [HIGH, LOW, HIGH, HIGH, LOW]
      case 7 => [HIGH, LOW, HIGH, LOW, LOW]
      case 8 => [HIGH, LOW, HIGH, LOW, HIGH]
      case 9 => [LOW, LOW, HIGH, LOW, HIGH]
      case _ => []
    else []
  }

  /** The bit string documenting each case of the switch, lead 1 first. */
  function Comment(pinCount: int, thisStep: int): string
  {
    if pinCount == 2 then
      match thisStep
      case 0 => "01" case 1 => "11" case 2 => "10" case 3 => "00"
      case _ => ""
    else if pinCount == 4 then
      match thisStep
      case 0 => "1010" case 1 => "0110" case 2 => "0101" case 3 => "1001"
      case _ => ""
    else if pinCount == 5 then
      match thisStep
      case 0 => "01101" case 1 => "01001" case 2 => "01011" case 3 => "01010"
      case 4 => "11010" case 5 => "10010" case 6 => "10110" case 7 => "10100"
      case 8 => "10101" case 9 => "00101"
      case _ => ""
    else ""
  }

  /** Reading of a bit string: '1' is HIGH, anything else LOW. */
  function Bits(s: string): (levels: seq<bool>)
    ensures |levels| == |s|
    ensures forall j :: 0 <= j < |s| ==> (levels[j] <==> s[j] == '1')
  {
    seq(|s|, j requires 0 <= j < |s| => s[j] == '1')
  }

  /** Every entry of the table writes exactly the levels its comment gives. */
  lemma PatternMatchesComment(pinCount: int, thisStep: int)
    requires InTable(pinCount, thisStep)
    ensures Pattern(pinCount, thisStep) == Bits(Comment(pinCount, thisStep))
  {
  }

  /** Number of leads on which two equally long level vectors differ. */
  function Distance(a: seq<bool>, b: seq<bool>): (d: nat)
    requires |a| == |b|
    ensures d <= |a|
    ensures d == 0 <==> a == b
  {
    if a == [] then 0
    else (if a[0] != b[0] then 1 else 0) + Distance(a[1..], b[1..])
  }

  /** Two vectors differ on as many leads one way as the other. */
  lemma {:induction false} DistanceSymmetric(a: seq<bool>, b: seq<bool>)
    requires |a| == |b|
    ensures Distance(a, b) == Distance(b, a)
  {
    if a != [] {
      DistanceSymmetric(a[1..], b[1..]);
    }
  }

  /** 1 when the two vectors differ at lead `j`, 0 otherwise or when they
      have no lead `j`. */
  function Differs(a: seq<bool>, b: seq<bool>, j: nat): nat
  {
    if j < |a| && j < |b| && a[j] != b[j] then 1 else 0
  }

  /** The entry that follows `thisStep` in the cyclic table. */
  function Successor(pinCount: int, thisStep: nat): nat
  {
    (thisStep + 1) % CycleLength(pinCount)
  }

  /** Cyclically adjacent entries differ in one lead for the 2- and 5-lead
      tables (a Gray-code sequence) and in two leads for the 4-lead table
      (both coils switch together). */
  lemma AdjacentEntriesDiffer(pinCount: int, thisStep: nat)
    requires InTable(pinCount, thisStep)
    ensures Distance(Pattern(pinCount, thisStep), Pattern(pinCount, Successor(pinCount, thisStep)))
            == if pinCount == 4 then 2 else 1
  {
    var a := Pattern(pinCount, thisStep);
    var b := Pattern(pinCount, Successor(pinCount, thisStep));
    DistanceUnrolled(a, b);
    if pinCount == 2 {
      AdjacentTwoLead(thisStep);
    } else if pinCount == 4 {
      AdjacentFourLead(thisStep);
    } else {
      AdjacentFiveLead(thisStep);
    }
  }

  lemma AdjacentTwoLead(thisStep: nat)
    requires thisStep < 4
    ensures var a, b := Pattern(2, thisStep), Pattern(2, Successor(2, thisStep));
            Differs(a, b, 0) + Differs(a, b, 1) == 1
  {
  }

  lemma AdjacentFourLead(thisStep: nat)
    requires thisStep < 4
    ensures var a, b := Pattern(4, thisStep), Pattern(4, Successor(4, thisStep));
            Differs(a, b, 0) + Differs(a, b, 1) + Differs(a, b, 2) + Differs(a, b, 3) == 2
  {
  }

  lemma AdjacentFiveLead(thisStep: nat)
    requires thisStep < 10
    ensures var a, b := Pattern(5, thisStep), Pattern(5, Successor(5, thisStep));
            Differs(a, b, 0) + Differs(a, b, 1) + Differs(a, b, 2)
            + Differs(a, b, 3) + Differs(a, b, 4) == 1
  {
  }

  /** Distance written out position by position, for tables of up to five
      leads. */
  lemma {:induction false} DistanceUnrolled(a: seq<bool>, b: seq<bool>)
    requires |a| == |b| <= 5
    ensures Distance(a, b) == Differs(a, b, 0) + Differs(a, b, 1) + Differs(a, b, 2)
                              + Differs(a, b, 3) + Differs(a, b, 4)
  {
    if a != [] {
      DistanceUnrolled(a[1..], b[1..]);
    }
  }

  /** No two entries of a table are equal: each table is a cycle through
      distinct phase states. */
  lemma EntriesDistinct(pinCount: int, i: nat, j: nat)
    requires InTable(pinCount, i) && InTable(pinCount, j) && i != j
    ensures Pattern(pinCount, i) != Pattern(pinCount, j)
  {
  }

  /** Writes of `levels[..j]` to the leads `pins[..j]`, lead 1 first. */
  function LeadWrites(pins: seq<int>, levels: seq<bool>, j: nat): seq<Event>
    requires j <= |levels| && j <= |pins|
  {
    if j == 0 then [] else LeadWrites(pins, levels, j - 1) + [DigitalWrite(pins[j - 1], levels[j - 1])]
  }

  /** The pin writes `stepMotor(thisStep)` performs on leads `pins`
      (motor_pin_1 .. motor_pin_5), in the order the source writes them. */
  function StepMotorWrites(pins: seq<int>, pinCount: int, thisStep: int): seq<Event>
    requires |pins| == 5
  {
    var levels := Pattern(pinCount, thisStep);
    LeadWrites(pins, levels, |levels|)
  }

  /** `LeadWrites` writes lead i with level i, once each. */
  lemma {:induction false} LeadWritesEach(pins: seq<int>, levels: seq<bool>, j: nat)
    requires j <= |levels| && j <= |pins|
    ensures |LeadWrites(pins, levels, j)| == j
    ensures forall i :: 0 <= i < j ==> LeadWrites(pins, levels, j)[i] == DigitalWrite(pins[i], levels[i])
  {
    if j > 0 {
      LeadWritesEach(pins, levels, j - 1);
    }
  }

  /** `stepMotor` writes every lead of a topology that has a table, each
      exactly once and in lead order, and writes nothing otherwise. */
  lemma StepMotorWritesEachLead(pins: seq<int>, pinCount: int, thisStep: int)
    requires |pins| == 5
    ensures InTable(pinCount, thisStep) ==>
              |StepMotorWrites(pins, pinCount, thisStep)| == pinCount &&
              forall j :: 0 <= j < pinCount ==>
                StepMotorWrites(pins, pinCount, thisStep)[j] == DigitalWrite(pins[j], Pattern(pinCount, thisStep)[j])
    ensures !InTable(pinCount, thisStep) ==> StepMotorWrites(pins, pinCount, thisStep) == []
  {
    var levels := Pattern(pinCount, thisStep);
    LeadWritesEach(pins, levels, |levels|);
  }
}
