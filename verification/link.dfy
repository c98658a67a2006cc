/** What the device sends and what the receiver does with it. */
module Link {
  import Decimal
  import Device
  import Wire
  import opened Receiver

  /** The record a press stamped at `now` stands for. The device clock is an
      unsigned 32-bit value, so it always fits the receiver's `int64`. */
  function DeviceMessage(now: Device.U32): ButtonMessage {
    ButtonMessage("esp8266_lolin", ButtonPressed, now, "active")
  }

  /** The wire keys around the device's two fixed values spell the head. */
  lemma EncodeHead()
    ensures Wire.DeviceKey + "esp8266_lolin" + "\"" + Wire.ActionKey + "button_pressed" + "\"" + Wire.TimestampKey == Device.Head
  {
    EncodeHeadStep0();
    EncodeHeadStep1();
    EncodeHeadStep2();
    EncodeHeadStep3();
    EncodeHeadStep4();
    EncodeHeadStep5();
  }

  lemma EncodeHeadStep0()
    ensures Wire.DeviceKey + "esp8266_lolin" == "{\"device\":\"esp8266_lolin"
  {
  }

  lemma EncodeHeadStep1()
    ensures "{\"device\":\"esp8266_lolin" + "\"" == "{\"device\":\"esp8266_lolin\""
  {
  }

  lemma EncodeHeadStep2()
    ensures "{\"device\":\"esp8266_lolin\"" + Wire.ActionKey == "{\"device\":\"esp8266_lolin\",\"action\":\""
  {
  }

  lemma EncodeHeadStep3()
    ensures "{\"device\":\"esp8266_lolin\",\"action\":\"" + "button_pressed" == "{\"device\":\"esp8266_lolin\",\"action\":\"button_pressed"
  {
  }

  lemma EncodeHeadStep4()
    ensures "{\"device\":\"esp8266_lolin\",\"action\":\"button_pressed" + "\"" == "{\"device\":\"esp8266_lolin\",\"action\":\"button_pressed\""
  {
  }

  lemma EncodeHeadStep5()
    ensures "{\"device\":\"esp8266_lolin\",\"action\":\"button_pressed\"" + Wire.TimestampKey == "{\"device\":\"esp8266_lolin\",\"action\":\"button_pressed\",\"timestamp\":"
  {
  }

  lemma EncodeTail()
    ensures "," + Wire.StatusKey + "active" + "\"" + Wire.Close == Device.Tail
  {
  }

  lemma Flatten(k1: string, a: string, q: string, k2: string, b: string, k3: string, d: string, x: string)
    ensures k1 + (a + q + (k2 + (b + q + (k3 + (d + x))))) == k1 + a + q + k2 + b + q + k3 + d + x
  {
  }

  lemma FlattenTail(d: string, c: string, k: string, s: string, q: string, e: string)
    ensures d + c + (k + (s + q + e)) == d + (c + k + s + q + e)
  {
  }

  lemma EncodeSplits(now: Device.U32)
    ensures Wire.Encode(DeviceMessage(now)) == Device.Head + Decimal.FromNat(now) + Device.Tail
  {
    var m, d := DeviceMessage(now), Decimal.FromNat(now);
    assert Decimal.FromInt(m.timestamp) == d;
    FlattenTail(d, ",", Wire.StatusKey, "active", "\"", Wire.Close);
    EncodeTail();
    assert Wire.TimestampTail(m) == d + Device.Tail;
    Flatten(Wire.DeviceKey, "esp8266_lolin", "\"", Wire.ActionKey, "button_pressed", Wire.TimestampKey, d, Device.Tail);
    EncodeHead();
  }

  /** The device's payload is the wire encoding of that record: same
      fields, same order, no whitespace, the clock in decimal. */
  lemma PayloadIsEncoding(now: Device.U32)
    ensures Device.Payload(now) == Wire.Encode(DeviceMessage(now))
  {
    EncodeSplits(now);
  }

  /** The device's fixed texts need no escaping. */
  lemma DeviceMessageEncodable(now: Device.U32)
    ensures Wire.Encodable(DeviceMessage(now))
  {
    assert Wire.PlainText("esp8266_lolin");
    assert Wire.PlainText(ButtonPressed);
    assert Wire.PlainText("active");
  }

  /** The device's payload decodes to the record it stands for. */
  lemma PayloadDecodes(now: Device.U32)
    ensures Wire.Decode(Device.Payload(now)) == Decoded(DeviceMessage(now))
  {
    PayloadIsEncoding(now);
    DeviceMessageEncodable(now);
    Wire.DecodeEncode(DeviceMessage(now));
  }

  /** Any decoder that reads the device's payload correctly sends every
      press to the known branch, once, with the record intact. */
  lemma PressIsKnown(now: Device.U32, unmarshal: string -> DecodeResult)
    requires unmarshal(Device.Payload(now)) == Decoded(DeviceMessage(now))
    ensures var trace := MessagePubHandler(Device.Topic, Device.Payload(now), unmarshal);
      Invocations(trace) == [DeviceMessage(now)] && Outcomes(trace) == [KnownAction]
      && ParseFailed !in trace
  {
  }

  /** The same for the wire decoder, and the device publishes on the topic
      the receiver subscribes to. */
  lemma PublishedPressIsKnown(now: Device.U32)
    ensures Device.Topic == Topic
    ensures Outcomes(MessagePubHandler(Device.Topic, Device.Payload(now), Wire.Decode)) == [KnownAction]
  {
    PayloadDecodes(now);
  }

  /** Any encoded record whose action is the device's reaches the known
      branch, whoever sent it and whatever its clock reads. */
  lemma EncodedPressIsKnown(m: ButtonMessage)
    requires Wire.Encodable(m) && m.action == ButtonPressed
    ensures Outcomes(MessagePubHandler(Topic, Wire.Encode(m), Wire.Decode)) == [KnownAction]
  {
    Wire.DecodeEncode(m);
  }

  /** A payload that is not JSON is reported and never dispatched. */
  lemma NotJsonIsDiscarded()
    ensures var trace := MessagePubHandler(Topic, "not json", Wire.Decode);
      ParseFailed in trace && Invocations(trace) == [] && Outcomes(trace) == []
  {
  }

  /** Any encoded record with another action, the empty one included,
      reaches the unknown branch carrying that action's text. */
  lemma EncodedOtherIsUnknown(m: ButtonMessage)
    requires Wire.Encodable(m) && m.action != ButtonPressed
    ensures Outcomes(MessagePubHandler(Topic, Wire.Encode(m), Wire.Decode)) == [UnknownAction(m.action)]
  {
    Wire.DecodeEncode(m);
  }
}
