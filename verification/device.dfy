/** The button loop of src/main.cpp: one pass of `loop()` as a pure step
    over the debounce state, with 32-bit unsigned `millis()` arithmetic,
    and the JSON payload it publishes on a debounced press. */
module Device {
  import opened Wrappers
  import Decimal

  /** `unsigned long` on the ESP8266 is 32 bits wide. */
  const Modulus: int := 0x1_0000_0000

  type U32 = x: int | 0 <= x < Modulus

  /** The topic presses are published on. */
  const Topic := "esp8266/button"

  /** Milliseconds a new reading must persist before it is accepted. */
  const DebounceDelay: U32 := 50

  /** A pin level. The button pulls the pin LOW while it is pressed. */
  datatype Level = Low | High

  /** The loop's globals: the previous raw reading, the debounced level,
      and the clock at the last raw change. */
  datatype DebounceState = DebounceState(lastButtonState: Level, buttonState: Level, lastDebounceTime: U32)

  /** The globals at power-on. */
  const Initial := DebounceState(High, High, 0)

  /** The three `millis()` values one pass may read: when recording a raw
      change, when testing the elapsed time, and when stamping the payload. */
  datatype Reads = Reads(change: U32, check: U32, stamp: U32)

  /** A pass in which every `millis()` call returns the same value. */
  function SameInstant(now: U32): Reads {
    Reads(now, now, now)
  }

  /** The new globals and the payload handed to `publish`, if any. */
  datatype StepResult = StepResult(state: DebounceState, payload: Option<string>)

  /** Unsigned 32-bit `now - since`. */
  function Elapsed(now: U32, since: U32): (d: U32)
    ensures since <= now ==> d == now - since
    ensures now < since ==> d == now + Modulus - since
  {
    (now - since) % Modulus
  }

  /** The fixed text before and after the clock value in a press message. */
  const Head := "{\"device\":\"esp8266_lolin\",\"action\":\"button_pressed\",\"timestamp\":"
  const Tail := ",\"status\":\"active\"}"

  /** The message published for a press stamped at `timestamp`, built piece
      by piece as `loop()` appends it: the fixed head, the clock in decimal
      and the fixed tail, with no whitespace. */
  function Payload(timestamp: U32): (r: string)
    ensures r == Head + Decimal.FromNat(timestamp) + Tail
  {
    PayloadHead();
    PayloadTail();
    Regroup(Head + Decimal.FromNat(timestamp), ",", "\"status\":\"active\"", "}");
    "{" + "\"device\":\"esp8266_lolin\"," + "\"action\":\"button_pressed\","
      + "\"timestamp\":" + Decimal.FromNat(timestamp) + "," + "\"status\":\"active\"" + "}"
  }

  lemma Regroup(x: string, a: string, b: string, c: string)
    ensures x + a + b + c == x + (a + b + c)
  {
  }

  /** The first four pieces `loop()` appends spell the head. */
  lemma PayloadHead()
    ensures "{" + "\"device\":\"esp8266_lolin\"," + "\"action\":\"button_pressed\"," + "\"timestamp\":" == Head
  {
    PayloadHeadStep0();
    PayloadHeadStep1();
    PayloadHeadStep2();
  }

  lemma PayloadHeadStep0()
    ensures "{" + "\"device\":\"esp8266_lolin\"," == "{\"device\":\"esp8266_lolin\","
  {
  }

  lemma PayloadHeadStep1()
    ensures "{\"device\":\"esp8266_lolin\"," + "\"action\":\"button_pressed\"," == "{\"device\":\"esp8266_lolin\",\"action\":\"button_pressed\","
  {
  }

  lemma PayloadHeadStep2()
    ensures "{\"device\":\"esp8266_lolin\",\"action\":\"button_pressed\"," + "\"timestamp\":" == "{\"device\":\"esp8266_lolin\",\"action\":\"button_pressed\",\"timestamp\":"
  {
  }

  /** The last three pieces spell the tail. */
  lemma PayloadTail()
    ensures "," + "\"status\":\"active\"" + "}" == Tail
  {
  }

  /** One pass of the loop body after the connection check. */
  function Step(s: DebounceState, reading: Level, t: Reads): (r: StepResult)
    ensures r.state.lastButtonState == reading
    ensures reading != s.lastButtonState ==> r.state.lastDebounceTime == t.change
    ensures reading == s.lastButtonState ==> r.state.lastDebounceTime == s.lastDebounceTime
    ensures r.state.buttonState != s.buttonState ==>
              Elapsed(t.check, r.state.lastDebounceTime) > DebounceDelay && r.state.buttonState == reading
    ensures Elapsed(t.check, r.state.lastDebounceTime) > DebounceDelay ==> r.state.buttonState == reading
    ensures r.payload.Some? <==> s.buttonState == High && r.state.buttonState == Low
    ensures r.payload.Some? ==> r.payload.value == Payload(t.stamp)
  {
    var debounceTime := if reading != s.lastButtonState then t.change else s.lastDebounceTime;
    var accept := Elapsed(t.check, debounceTime) > DebounceDelay && reading != s.buttonState;
    var button := if accept then reading else s.buttonState;
    var payload := if accept && button == Low then Some(Payload(t.stamp)) else None;
    StepResult(DebounceState(reading, button, debounceTime), payload)
  }

  /** The unsigned difference is the true elapsed time whenever less than
      2^32 ms have passed, even when the clock has wrapped in between. */
  lemma ElapsedAcrossWrap(since: nat, now: nat)
    requires since <= now < since + Modulus
    ensures Elapsed(now % Modulus, since % Modulus) == now - since
  {
  }

  /** A pass whose raw reading differs from the previous one never moves the
      debounced level unless the clock advanced more than the delay between
      the two `millis()` calls. */
  lemma RawChangeHoldsLevel(s: DebounceState, reading: Level, t: Reads)
    requires reading != s.lastButtonState
    requires Elapsed(t.check, t.change) <= DebounceDelay
    ensures Step(s, reading, t).state.buttonState == s.buttonState
    ensures Step(s, reading, t).payload.None?
  {
  }

  /** With one clock value per pass, the debounced level moves only on a
      pass whose reading repeats the previous one. */
  lemma StableReadingRequired(s: DebounceState, reading: Level, now: U32)
    requires Step(s, reading, SameInstant(now)).state.buttonState != s.buttonState
    ensures reading == s.lastButtonState
    ensures Elapsed(now, s.lastDebounceTime) > DebounceDelay
  {
  }

  /** An elapsed time of exactly the delay is not enough. */
  lemma DelayIsStrict(s: DebounceState, reading: Level, t: Reads)
    requires reading == s.lastButtonState
    requires Elapsed(t.check, s.lastDebounceTime) == DebounceDelay
    ensures Step(s, reading, t) == StepResult(s, None)
  {
  }

  /** One sample of the loop: the pin level and the clock. */
  datatype Sample = Sample(reading: Level, now: U32)

  /** Successive passes over `samples`, starting from `s`, one clock value
      per pass. */
  function Run(s: DebounceState, samples: seq<Sample>): (steps: seq<StepResult>)
    ensures |steps| == |samples|
    decreases |samples|
  {
    if |samples| == 0 then []
    else
      var r := Step(s, samples[0].reading, SameInstant(samples[0].now));
      [r] + Run(r.state, samples[1..])
  }

  /** The globals before pass `i` of a run. */
  function StateBefore(s: DebounceState, steps: seq<StepResult>, i: nat): DebounceState
    requires i <= |steps|
  {
    if i == 0 then s else steps[i - 1].state
  }

  /** Every pass of a run is one step from the state the previous pass left. */
  lemma {:induction false} RunIsStepwise(s: DebounceState, samples: seq<Sample>, i: nat)
    requires i < |samples|
    ensures Run(s, samples)[i]
            == Step(StateBefore(s, Run(s, samples), i), samples[i].reading, SameInstant(samples[i].now))
    decreases i
  {
    if i > 0 {
      var r := Step(s, samples[0].reading, SameInstant(samples[0].now));
      RunIsStepwise(r.state, samples[1..], i - 1);
    }
  }

  /** In a run, pass `i` publishes exactly when the debounced level falls
      from HIGH to LOW on that pass, and what it publishes is stamped with
      that pass's clock. */
  lemma PublishesOnPressOnly(s: DebounceState, samples: seq<Sample>, i: nat)
    requires i < |samples|
    ensures var steps := Run(s, samples);
      (steps[i].payload.Some? <==>
         StateBefore(s, steps, i).buttonState == High && steps[i].state.buttonState == Low)
      && (steps[i].payload.Some? ==> steps[i].payload.value == Payload(samples[i].now))
  {
    RunIsStepwise(s, samples, i);
  }

  /** Between a LOW level at `lo` and a HIGH level at `hi` there is a pass
      on which the level rises. */
  lemma {:induction false} RiseBetween(steps: seq<StepResult>, lo: nat, hi: nat)
    requires lo < hi < |steps|
    requires steps[lo].state.buttonState == Low && steps[hi].state.buttonState == High
    ensures exists k :: lo < k <= hi && steps[k - 1].state.buttonState == Low && steps[k].state.buttonState == High
    decreases hi - lo
  {
    if steps[lo + 1].state.buttonState == Low {
      RiseBetween(steps, lo + 1, hi);
    } else {
      assert steps[lo + 1 - 1].state.buttonState == Low;
    }
  }

  /** Two published presses in a run are always separated by a debounced
      release: one press, at most one message. */
  lemma PressesSeparatedByRelease(s: DebounceState, samples: seq<Sample>, i: nat, j: nat)
    requires i < j < |samples|
    requires Run(s, samples)[i].payload.Some? && Run(s, samples)[j].payload.Some?
    ensures exists k :: i < k < j
              && Run(s, samples)[k - 1].state.buttonState == Low
              && Run(s, samples)[k].state.buttonState == High
  {
    var steps := Run(s, samples);
    PublishesOnPressOnly(s, samples, i);
    PublishesOnPressOnly(s, samples, j);
    RiseBetween(steps, i, j - 1);
  }

  /** A run in which the pin stays HIGH keeps the debounced level HIGH and
      publishes nothing. */
  lemma {:induction false} IdleStaysHigh(s: DebounceState, samples: seq<Sample>)
    requires s.buttonState == High
    requires forall i :: 0 <= i < |samples| ==> samples[i].reading == High
    ensures forall i :: 0 <= i < |samples| ==>
              Run(s, samples)[i].payload == None && Run(s, samples)[i].state.buttonState == High
    decreases |samples|
  {
    if |samples| > 0 {
      var r := Step(s, samples[0].reading, SameInstant(samples[0].now));
      IdleStaysHigh(r.state, samples[1..]);
      assert forall i :: 1 <= i < |samples| ==> Run(s, samples)[i] == Run(r.state, samples[1..])[i - 1];
    }
  }

  /** From power-on, a button that is never pressed never publishes: the
      pull-up holds the pin HIGH. */
  lemma IdleRunIsSilent(samples: seq<Sample>)
    requires forall i :: 0 <= i < |samples| ==> samples[i].reading == High
    ensures forall i :: 0 <= i < |samples| ==> Run(Initial, samples)[i].payload == None
  {
    IdleStaysHigh(Initial, samples);
  }
}
