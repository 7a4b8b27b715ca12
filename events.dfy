/** What the actuators do to the outside world, as a trace of events:
    digital pin writes, blocking delays and diagnostic prints. */
module Events {

  /** Digital levels: `HIGH` is true, `LOW` is false. */
  const HIGH: bool := true
  const LOW: bool := false

  datatype Event =
    | DigitalWrite(pin: int, high: bool)   // digitalWrite(pin, level)
    | DelayMicroseconds(us: int)           // delayMicroseconds(us)
    | Delay(ms: int)                       // delay(ms)
    | Log(message: string)                 // Serial.println(message), diagnostic only

  /** Number of writes that drive `pin` HIGH, i.e. pulses started on it. */
  function RisingEdges(trace: seq<Event>, pin: int): nat
  {
    if trace == [] then 0
    else RisingEdges(trace[..|trace| - 1], pin)
         + (if trace[|trace| - 1] == DigitalWrite(pin, HIGH) then 1 else 0)
  }

  /** Counting HIGH writes distributes over concatenation of traces. */
  lemma {:induction false} RisingEdgesAppend(a: seq<Event>, b: seq<Event>, pin: int)
    ensures RisingEdges(a + b, pin) == RisingEdges(a, pin) + RisingEdges(b, pin)
    decreases |b|
  {
    if b == [] {
      assert a + b == a;
    } else {
      var b' := b[..|b| - 1];
      assert (a + b)[..|a + b| - 1] == a + b';
      RisingEdgesAppend(a, b', pin);
    }
  }
}
