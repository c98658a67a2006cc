/** The wire form of a button event: the compact JSON object the device
    publishes, `{"device":"…","action":"…","timestamp":N,"status":"…"}`,
    fields in that order and no whitespace, and a decoder that accepts
    exactly that form. */
module Wire {
  import opened Wrappers
  import Decimal
  import opened Receiver

  const DeviceKey := "{\"device\":\""
  const ActionKey := ",\"action\":\""
  const TimestampKey := ",\"timestamp\":"
  const StatusKey := "\"status\":\""
  const Close := "}"

  /** Text that stands for itself inside a JSON string: no quote, no
      backslash, no control character. */
  predicate PlainText(s: string) {
    forall i :: 0 <= i < |s| ==> s[i] != '"' && s[i] != '\\' && s[i] >= ' '
  }

  /** A record whose text fields need no escaping. */
  predicate Encodable(m: ButtonMessage) {
    PlainText(m.device) && PlainText(m.action) && PlainText(m.status)
  }

  /* The encoding is written from the first key on; each `…Tail` is the
     value of one field and everything after it. */

  function Encode(m: ButtonMessage): string {
    DeviceKey + DeviceTail(m)
  }

  function DeviceTail(m: ButtonMessage): string {
    m.device + "\"" + (ActionKey + ActionTail(m))
  }

  function ActionTail(m: ButtonMessage): string {
    m.action + "\"" + (TimestampKey + TimestampTail(m))
  }

  function TimestampTail(m: ButtonMessage): string {
    Decimal.FromInt(m.timestamp) + "," + (StatusKey + StatusTail(m))
  }

  function StatusTail(m: ButtonMessage): string {
    m.status + "\"" + Close
  }

  /** The rest of `s` after the literal `lit`, if `s` starts with it. */
  function Expect(lit: string, s: string): (r: Option<string>)
    ensures r.Some? <==> lit <= s
    ensures r.Some? ==> s == lit + r.value
  {
    if lit <= s then Some(s[|lit|..]) else None
  }

  /** Splits `s` at the first `stop`: the text before it and the text after it. */
  function TakeUntil(s: string, stop: char): (r: Option<(string, string)>)
    ensures r.None? <==> stop !in s
    ensures r.Some? ==> stop !in r.value.0 && s == r.value.0 + [stop] + r.value.1
    decreases |s|
  {
    if |s| == 0 then None
    else if s[0] == stop then Some(([], s[1..]))
    else
      match TakeUntil(s[1..], stop)
      case None => None
      case Some(split) => Some(([s[0]] + split.0, split.1))
  }

  /** The first occurrence of `stop` is where the split happens. */
  lemma {:induction false} TakeUntilFirst(a: string, stop: char, b: string)
    requires stop !in a
    ensures TakeUntil(a + [stop] + b, stop) == Some((a, b))
    decreases |a|
  {
    var s := a + [stop] + b;
    if |a| > 0 {
      assert s[0] == a[0] != stop;
      assert s[1..] == a[1..] + [stop] + b;
      TakeUntilFirst(a[1..], stop, b);
      assert [a[0]] + a[1..] == a;
    } else {
      assert s[1..] == b;
    }
  }

  /** A JSON string field's contents up to its closing quote. */
  function TakeText(s: string): (r: Option<(string, string)>)
    ensures r.Some? ==> PlainText(r.value.0) && s == r.value.0 + "\"" + r.value.1
  {
    var split :- TakeUntil(s, '"');
    if PlainText(split.0) then Some(split) else None
  }

  /* The field values, if `s` has exactly the wire form. The reading is
     split into one function per field, each taking the input after the
     previous field's value. */

  function Fields(s: string): Option<ButtonMessage> {
    var rest :- Expect(DeviceKey, s);
    DeviceField(rest)
  }

  function DeviceField(s: string): Option<ButtonMessage> {
    var device :- TakeText(s);
    var rest :- Expect(ActionKey, device.1);
    ActionField(device.0, rest)
  }

  function ActionField(device: string, s: string): Option<ButtonMessage> {
    var action :- TakeText(s);
    var rest :- Expect(TimestampKey, action.1);
    TimestampField(device, action.0, rest)
  }

  function TimestampField(device: string, action: string, s: string): Option<ButtonMessage> {
    var number :- TakeUntil(s, ',');
    NumberField(device, action, number.0, number.1)
  }

  /** The text read up to the comma must be a canonical numeral that fits
      an `int64`, and the status key must follow. */
  function NumberField(device: string, action: string, number: string, s: string): Option<ButtonMessage> {
    var timestamp :- Decimal.ToInt(number);
    var rest :- Expect(StatusKey, s);
    if -0x8000_0000_0000_0000 <= timestamp < 0x8000_0000_0000_0000 then
      StatusField(device, action, timestamp, rest)
    else None
  }

  function StatusField(device: string, action: string, timestamp: Int64, s: string): Option<ButtonMessage> {
    var status :- TakeText(s);
    if status.1 == Close then Some(ButtonMessage(device, action, timestamp, status.0)) else None
  }

  /** Decoding of a payload: the record, or an error when the payload is not
      in wire form or its number does not fit an `int64`. */
  function Decode(s: string): DecodeResult {
    match Fields(s)
    case Some(m) => Decoded(m)
    case None => DecodeError
  }

  lemma TextFieldReads(text: string, rest: string)
    requires PlainText(text)
    ensures TakeText(text + "\"" + rest) == Some((text, rest))
  {
    TakeUntilFirst(text, '"', rest);
  }

  lemma NumberFieldReads(timestamp: Int64, rest: string)
    ensures TakeUntil(Decimal.FromInt(timestamp) + "," + rest, ',') == Some((Decimal.FromInt(timestamp), rest))
  {
    var number := Decimal.FromInt(timestamp);
    Decimal.FromIntChars(timestamp);
    assert ',' !in number;
    TakeUntilFirst(number, ',', rest);
  }

  /* Each field reader, given what an encoding has left at its field, reads
     the record back; and whatever it accepts has that shape. */

  lemma StatusFieldRoundTrip(m: ButtonMessage)
    requires PlainText(m.status)
    ensures StatusField(m.device, m.action, m.timestamp, StatusTail(m)) == Some(m)
  {
    TextFieldReads(m.status, Close);
  }

  lemma StatusFieldShape(device: string, action: string, timestamp: Int64, s: string)
    requires StatusField(device, action, timestamp, s).Some?
    ensures var m := StatusField(device, action, timestamp, s).value;
      m.device == device && m.action == action && m.timestamp == timestamp
      && PlainText(m.status) && s == StatusTail(m)
  {
  }

  lemma TimestampFieldRoundTrip(m: ButtonMessage)
    requires PlainText(m.status)
    ensures TimestampField(m.device, m.action, TimestampTail(m)) == Some(m)
  {
    NumberFieldReads(m.timestamp, StatusKey + StatusTail(m));
    Decimal.ToIntFromInt(m.timestamp);
    StatusFieldRoundTrip(m);
  }

  lemma NumberFieldShape(device: string, action: string, number: string, s: string)
    requires NumberField(device, action, number, s).Some?
    ensures var m := NumberField(device, action, number, s).value;
      m.device == device && m.action == action && PlainText(m.status)
      && number == Decimal.FromInt(m.timestamp) && s == StatusKey + StatusTail(m)
  {
    var timestamp := Decimal.ToInt(number).value;
    var rest := Expect(StatusKey, s).value;
    StatusFieldShape(device, action, timestamp, rest);
    Decimal.FromIntToInt(number);
  }

  lemma TimestampFieldShape(device: string, action: string, s: string)
    requires TimestampField(device, action, s).Some?
    ensures var m := TimestampField(device, action, s).value;
      m.device == device && m.action == action && PlainText(m.status) && s == TimestampTail(m)
  {
    var number := TakeUntil(s, ',').value;
    NumberFieldShape(device, action, number.0, number.1);
  }

  lemma ActionFieldRoundTrip(m: ButtonMessage)
    requires PlainText(m.action) && PlainText(m.status)
    ensures ActionField(m.device, ActionTail(m)) == Some(m)
  {
    TextFieldReads(m.action, TimestampKey + TimestampTail(m));
    TimestampFieldRoundTrip(m);
  }

  lemma ActionFieldShape(device: string, s: string)
    requires ActionField(device, s).Some?
    ensures var m := ActionField(device, s).value;
      m.device == device && PlainText(m.action) && PlainText(m.status) && s == ActionTail(m)
  {
    var action := TakeText(s).value;
    var rest := Expect(TimestampKey, action.1).value;
    TimestampFieldShape(device, action.0, rest);
  }

  lemma DeviceFieldRoundTrip(m: ButtonMessage)
    requires Encodable(m)
    ensures DeviceField(DeviceTail(m)) == Some(m)
  {
    TextFieldReads(m.device, ActionKey + ActionTail(m));
    ActionFieldRoundTrip(m);
  }

  lemma DeviceFieldShape(s: string)
    requires DeviceField(s).Some?
    ensures Encodable(DeviceField(s).value) && s == DeviceTail(DeviceField(s).value)
  {
    var device := TakeText(s).value;
    var rest := Expect(ActionKey, device.1).value;
    ActionFieldShape(device.0, rest);
  }

  /** Round trip: decoding an encoded record gives it back. */
  lemma DecodeEncode(m: ButtonMessage)
    requires Encodable(m)
    ensures Decode(Encode(m)) == Decoded(m)
  {
    DeviceFieldRoundTrip(m);
  }

  /** The decoder accepts nothing but encodings: a payload that decodes is
      the encoding of what it decodes to, and that record needs no escaping. */
  lemma EncodeDecode(s: string)
    requires Decode(s).Decoded?
    ensures Encodable(Decode(s).msg)
    ensures Encode(Decode(s).msg) == s
  {
    DeviceFieldShape(Expect(DeviceKey, s).value);
  }
}
