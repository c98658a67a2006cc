/** The Go subscriber of go/main.go: the decoded `ButtonMessage`, the
    action dispatch of `handleButtonPress`, and the decode-then-dispatch
    control flow of the message callback. JSON decoding is a parameter. */
module Receiver {

  /** Go's `int64`. */
  type Int64 = x: int | -0x8000_0000_0000_0000 <= x < 0x8000_0000_0000_0000

  /** The topic the subscriber listens on. */
  const Topic := "esp8266/button"

  /** The decoded record (`ButtonMessage`). */
  datatype ButtonMessage = ButtonMessage(device: string, action: string, timestamp: Int64, status: string)

  /** What `json.Unmarshal` yields for one payload: a record, or an error. */
  datatype DecodeResult = Decoded(msg: ButtonMessage) | DecodeError

  /** The one action the receiver knows. */
  const ButtonPressed := "button_pressed"

  /** The two branches of the `switch` on the action. */
  datatype Outcome = KnownAction | UnknownAction(action: string)

  /** Observable effects of the callback, in the order they happen. */
  datatype Effect =
    | Received(topic: string, payload: string)  // topic and raw payload printed
    | ParseFailed                               // "Error parsing JSON"
    | Displayed(msg: ButtonMessage)             // the decoded fields printed
    | Invoked(msg: ButtonMessage)               // `handleButtonPress` entered with this record
    | Acted(outcome: Outcome)                   // the branch of the switch taken

  /** Total mapping from an action string to its branch. */
  function Dispatch(action: string): (o: Outcome)
    ensures o.KnownAction? <==> action == ButtonPressed
    ensures o.UnknownAction? ==> o.action == action
  {
    if action == ButtonPressed then KnownAction else UnknownAction(action)
  }

  /** The records handed to `handleButtonPress`, in order. */
  function Invocations(trace: seq<Effect>): seq<ButtonMessage>
    decreases |trace|
  {
    if |trace| == 0 then []
    else (if trace[0].Invoked? then [trace[0].msg] else []) + Invocations(trace[1..])
  }

  /** The dispatch branches taken, in order. */
  function Outcomes(trace: seq<Effect>): seq<Outcome>
    decreases |trace|
  {
    if |trace| == 0 then []
    else (if trace[0].Acted? then [trace[0].outcome] else []) + Outcomes(trace[1..])
  }

  lemma {:induction false} InvocationsAppend(a: seq<Effect>, b: seq<Effect>)
    ensures Invocations(a + b) == Invocations(a) + Invocations(b)
    decreases |a|
  {
    if |a| > 0 {
      assert (a + b)[0] == a[0];
      assert (a + b)[1..] == a[1..] + b;
      InvocationsAppend(a[1..], b);
    } else {
      assert a + b == b;
    }
  }

  lemma {:induction false} OutcomesAppend(a: seq<Effect>, b: seq<Effect>)
    ensures Outcomes(a + b) == Outcomes(a) + Outcomes(b)
    decreases |a|
  {
    if |a| > 0 {
      assert (a + b)[0] == a[0];
      assert (a + b)[1..] == a[1..] + b;
      OutcomesAppend(a[1..], b);
    } else {
      assert a + b == b;
    }
  }

  /** `handleButtonPress`: one invocation with the record as given, and
      exactly one branch, chosen by the action alone. */
  function HandleButtonPress(msg: ButtonMessage): (trace: seq<Effect>)
    ensures Invocations(trace) == [msg]
    ensures |Outcomes(trace)| == 1
    ensures Outcomes(trace)[0] == KnownAction <==> msg.action == ButtonPressed
    ensures Outcomes(trace)[0] == UnknownAction(msg.action) <==> msg.action != ButtonPressed
  {
    var trace := [Invoked(msg), Acted(Dispatch(msg.action))];
    assert trace[1..][1..] == [];
    assert Invocations(trace[1..]) == [] && |Outcomes(trace[1..])| == 1;
    trace
  }

  /** The message callback: print what arrived, decode it with `unmarshal`,
      and either report the error and stop or display the record and dispatch it. */
  function MessagePubHandler(topic: string, payload: string, unmarshal: string -> DecodeResult): (trace: seq<Effect>)
    ensures |trace| > 0 && trace[0] == Received(topic, payload)
    ensures ParseFailed in trace <==> unmarshal(payload).DecodeError?
    ensures unmarshal(payload).DecodeError? ==> Invocations(trace) == [] && Outcomes(trace) == []
    ensures unmarshal(payload).Decoded? ==>
              Invocations(trace) == [unmarshal(payload).msg]
              && Outcomes(trace) == [Dispatch(unmarshal(payload).msg.action)]
  {
    match unmarshal(payload)
    case DecodeError =>
      var trace := [Received(topic, payload), ParseFailed];
      assert trace[1..] == [ParseFailed] && trace[1..][1..] == [];
      assert Outcomes(trace[1..][1..]) == [];
      assert Outcomes(trace[1..]) == [];
      assert Invocations(trace[1..]) == [];
      trace
    case Decoded(msg) =>
      var head := [Received(topic, payload), Displayed(msg)];
      InvocationsAppend(head, HandleButtonPress(msg));
      OutcomesAppend(head, HandleButtonPress(msg));
      head + HandleButtonPress(msg)
  }
}
