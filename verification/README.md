# ESP8266 push button → MQTT → Go receiver, in Dafny

This project models the two pieces of logic in a push-button-over-MQTT system.

- **The device loop** (`src/main.cpp`). An ESP8266 reads a button pin on every pass of `loop()`.
  It debounces the reading with a 50 ms window measured on the 32-bit `millis()` clock.
  On each debounced press (a fall to LOW, because the pin has a pull-up) it publishes the JSON object
  `{"device":"esp8266_lolin","action":"button_pressed","timestamp":<millis>,"status":"active"}`
  to the topic `esp8266/button`.
- **The receiver** (`go/main.go`). A Go subscriber decodes each message into a `ButtonMessage`.
  On a decode error it reports the error and stops. Otherwise it displays the fields and calls
  `handleButtonPress` once. That function switches on the action: `"button_pressed"` is the known
  branch, and every other string goes to the "unknown action" branch.

Modules:

- `Device` (`device.dfy`): one pass of the loop as a pure function `Step`.
  - Its inputs are the globals (`lastButtonState`, `buttonState`, `lastDebounceTime`), the pin level and the clock.
  - Its output is the new globals and the payload handed to `publish`, if any.
  - Time is `U32`, and elapsed time is computed modulo 2^32, as `unsigned long` arithmetic does on the ESP8266.
  - `Run` iterates `Step` over a sequence of samples.
- `Receiver` (`receiver.dfy`): `ButtonMessage` (with an `int64` timestamp), the total `Dispatch` on the action,
  `HandleButtonPress`, and `MessagePubHandler`.
  - The handler's observable behaviour is a trace of `Effect`s.
  - `json.Unmarshal` is a parameter `unmarshal: string -> DecodeResult`.
- `Wire` (`wire.dfy`): the compact JSON form the device writes, as an encoder and a decoder for `ButtonMessage`.
  The decoder accepts exactly the encodings of records whose texts need no escaping (`Encodable`).
  It is one concrete decoder to plug into the handler, not a model of `encoding/json`.
- `Decimal` (`decimal.dfy`): base-10 rendering and reading of naturals and integers.
  This is Arduino's `String(unsigned long)` and the canonical signed numerals the wire decoder reads.
- `Link` (`link.dfy`): cross-file facts.
  - The device payload is the wire encoding of a `ButtonMessage`.
  - That payload decodes and lands in the known branch.
  - Both sides use the same topic.
- `Wrappers` (`wrappers.dfy`): `Option`.

Choice for `millis()`: `Step` takes three clock values in a `Reads` record, one for each `millis()` call of a pass:
the one that records a raw change (line 86), the one that tests the elapsed time (line 89), and the one that stamps
the payload (line 101). `Run` and the lemmas about runs use `SameInstant(now)`, where all three are equal.
`RawChangeHoldsLevel` states what holds for distinct reads.

The timestamp is the device's `millis()` (milliseconds since boot, wrapping at 2^32), not milliseconds since the epoch.

## Model

| member | source | states |
|---|---|---|
| Device.Elapsed | src/main.cpp:89 | `millis() - lastDebounceTime` in 32-bit unsigned arithmetic: the plain difference when the clock has not wrapped since, otherwise the difference plus 2^32 |
| Device.ElapsedAcrossWrap | src/main.cpp:86-89 | if fewer than 2^32 ms truly passed between two instants, the unsigned difference of their wrapped clock values is exactly the true elapsed time, so debouncing still works across a `millis()` overflow |
| Device.Step | src/main.cpp:82-121 | after a pass, `lastButtonState` is the reading; `lastDebounceTime` becomes the change-time clock exactly when the reading differs from `lastButtonState` and is otherwise unchanged; `buttonState` changes only when the elapsed time is strictly greater than 50 ms, and then only to the reading; once more than 50 ms have elapsed it equals the reading; a payload is produced exactly when `buttonState` falls from HIGH to LOW, and it is the press message stamped with the stamping clock |
| Device.RawChangeHoldsLevel | src/main.cpp:85-91 | a pass whose reading differs from the previous one leaves `buttonState` alone and publishes nothing, unless more than 50 ms pass between the two `millis()` calls |
| Device.StableReadingRequired | src/main.cpp:85-91 | with one clock value per pass, `buttonState` moves only on a pass whose reading repeats the previous reading and only when more than 50 ms have passed since the last raw change |
| Device.DelayIsStrict | src/main.cpp:89 | an elapsed time of exactly 50 ms with a steady reading changes nothing and publishes nothing |
| Device.RunIsStepwise | src/main.cpp:76-123 | every pass of a run is one `Step` from the state the previous pass left, starting from the given state |
| Device.PublishesOnPressOnly | src/main.cpp:90-106 | in a run, pass i publishes exactly when the debounced level falls from HIGH to LOW on that pass; nothing is published on a release; the message carries that pass's clock |
| Device.PressesSeparatedByRelease | src/main.cpp:90-94 | between any two published presses of a run there is a pass on which the debounced level rises from LOW to HIGH: at most one message per press |
| Device.Payload | src/main.cpp:98-103 | the published message is exactly `{"device":"esp8266_lolin","action":"button_pressed","timestamp":` then the decimal clock then `,"status":"active"}`, in that field order with no whitespace |
| Device.IdleStaysHigh | src/main.cpp:83-96 | a run in which every reading is HIGH, from a debounced level of HIGH, keeps the level HIGH on every pass and publishes nothing |
| Device.IdleRunIsSilent | src/main.cpp:15-17 | from the power-on globals (both levels HIGH, clock 0), a button that is never pressed never publishes, whatever the clock does |
| Decimal.FromNat | src/main.cpp:101 | `String(millis())` is a canonical numeral: digits only, at least one, no leading zero, and it starts with '0' exactly for zero |
| Decimal.ToNatFromNat | src/main.cpp:101 | reading back the decimal rendering of n gives n |
| Decimal.FromNatToNat | src/main.cpp:101 | every canonical numeral is the rendering of its value, so the rendering is a bijection onto canonical numerals |
| Decimal.ToInt | go/main.go:19 | a string reads as an integer exactly when it is a canonical signed numeral; a leading '-' gives a negative value, otherwise a non-negative one |
| Decimal.ToIntFromInt | go/main.go:19 | reading back the rendering of any integer gives it back |
| Decimal.FromIntToInt | go/main.go:19 | whatever reads as an integer is the rendering of that integer |
| Receiver.Dispatch | go/main.go:69-76 | total over all strings: the known branch exactly for `"button_pressed"`, otherwise the unknown branch carrying the same action text (the empty string included) |
| Receiver.HandleButtonPress | go/main.go:63-77 | one call records one invocation with the record unchanged and takes exactly one branch: the known one iff the action is `"button_pressed"`, the unknown one with the action text iff it is not |
| Receiver.MessagePubHandler | go/main.go:31-53 | the arrival is reported first; a parse error is reported iff decoding fails, and then nothing is dispatched; on success `handleButtonPress` runs exactly once, with the decoded record unchanged, and takes the branch its action selects |
| Wire.DecodeEncode | go/main.go:37-41 | decoding the wire encoding of any record whose texts need no escaping gives that record back, all four fields equal |
| Wire.EncodeDecode | go/main.go:16-21 | a payload that decodes is exactly the encoding of the decoded record, and that record's texts need no escaping: the decoder accepts nothing else |
| Link.PayloadIsEncoding | src/main.cpp:98-103 | the device's payload is the wire encoding of the record (esp8266_lolin, button_pressed, clock, active) |
| Link.DeviceMessageEncodable | src/main.cpp:99-102 | the device's fixed texts contain no quote, backslash or control character |
| Link.PayloadDecodes | go/main.go:37-41 | the device's payload decodes to that record; its 32-bit unsigned timestamp fits the `int64` field |
| Link.PressIsKnown | go/main.go:69-71 | with any decoder that reads the device payload correctly, the handler invokes `handleButtonPress` once with the device's record and takes the known branch, and reports no parse error |
| Link.PublishedPressIsKnown | src/main.cpp:100 | the device publishes on the topic the receiver subscribes to, and its fixed action lands in the known branch |
| Link.EncodedPressIsKnown | go/main.go:70-71 | any encoded record with action `"button_pressed"` reaches the known branch, whatever its device, status or timestamp |
| Link.EncodedOtherIsUnknown | go/main.go:74-75 | any encoded record with another action reaches the unknown branch carrying that action text |
| Link.NotJsonIsDiscarded | go/main.go:38-41 | the payload `not json` yields a reported parse error and no dispatch |

## Left out

- Wi-Fi setup, `setup()`, `reconnect()` and `client.loop()` (src/main.cpp:23-80). They are hardware and network I/O with busy-wait retries and a random client ID.
- `digitalRead`, the LED blink, `delay` and the serial prints of the device. The pin level and the clock are inputs of `Step`.
- The result of `client.publish` (src/main.cpp:106-111). `Step` yields the payload handed to it. Success or failure only selects a print and does not touch the debounce state.
- `json.Unmarshal` (go/main.go:38). It is a parameter of `MessagePubHandler` and is not modelled.
- Wire.Decode: accepts only the compact form the device writes. `encoding/json` also accepts whitespace, any field order, escapes, missing fields (left at zero) and extra fields. Properties about the handler therefore hold either for any decoder (`Receiver.MessagePubHandler`, `Link.PressIsKnown`) or for this decoder on the device's form.
- The Go `main` (go/main.go:79-111): connection options, connect and subscribe with `log.Fatalf`, the signal wait and `Disconnect(250)`. This is client-library and OS plumbing with no logic beyond failing fast. The connection lifecycle and the bounded `Disconnect(250)` shutdown live there and are not modelled.
- The on-connect and connection-lost handlers (go/main.go:55-61). They only print.
- Print formatting and the `time.Now()` receipt time (go/main.go:32-49). They appear only as the coarse effects `Received`, `ParseFailed` and `Displayed`.
- Concurrency of the MQTT callback. The handler keeps no shared state, and the model is sequential.
- Payloads are strings of characters rather than bytes. Everything the device sends is ASCII.
- Decimal.ToInt: rejects `-0`, which `encoding/json` reads into an `int64` as 0. The wire encoder never writes it.
- Device.Run: uses one clock value per pass. Distinct clock reads within a pass are covered only by `Step` and `RawChangeHoldsLevel`.
