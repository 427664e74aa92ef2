/**
 * The forwarder and the dashboard together: a line published by the
 * forwarder, delivered with its payload unchanged, lands in the buffer of
 * its own sensor type and in no other.
 */
module Pipeline {
  import opened JsStrings
  import opened Forwarder
  import opened Dashboard

  /** The message the dashboard receives for a publication whose payload survives the wire unchanged. */
  function Delivered(p: Publication<real>): Message
  {
    Message(p.topic, Payload(p.reading.sensorType, p.reading.value, p.reading.timestamp))
  }

  /**
   * A classified line reaches buffer 0 exactly when it is a temperature
   * reading and buffer 1 exactly when it is a humidity reading, as one new
   * last entry with the timestamp of classification and the floored value.
   */
  lemma PublishedLineReachesItsBuffer(history: seq<Message>, line: string, now: int, parseFloat: string -> real)
    ensures Classify(line, now, parseFloat).Some? ==>
      var p := Classify(line, now, parseFloat).value;
      var entry := SensorData(p.reading.sensorType, p.reading.value.Floor, now);
      var h := history + [Delivered(p)];
      && (Includes(line, TemperatureKey) ==>
            BufferOf(h, TemperatureTopic) == BufferOf(history, TemperatureTopic) + [entry]
            && BufferOf(h, HumidityTopic) == BufferOf(history, HumidityTopic))
      && (!Includes(line, TemperatureKey) ==>
            BufferOf(h, HumidityTopic) == BufferOf(history, HumidityTopic) + [entry]
            && BufferOf(h, TemperatureTopic) == BufferOf(history, TemperatureTopic))
  {
    if Classify(line, now, parseFloat).Some? {
      var p := Classify(line, now, parseFloat).value;
      PublicationShape(line, now, parseFloat);
      CheckboxTopicsAreRouted(TemperatureSubscription);
      BufferOfSnoc(history, Delivered(p), TemperatureTopic);
      BufferOfSnoc(history, Delivered(p), HumidityTopic);
    }
  }
}
