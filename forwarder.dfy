/**
 * The serial-line forwarder of server/index.ts: each text line read from the
 * serial device is classified by the first sensor-type marker it contains,
 * turned into a timestamped reading and published once on the topic derived
 * from the sensor type.
 *
 * The wall clock (`moment().unix()`) is the parameter `now`, the number
 * parser (`parseFloat`) is the parameter `parseFloat` with an uninterpreted
 * result type `N`, and the broker publish is returned as a value.
 */
module Forwarder {
  import opened Wrappers
  import opened JsStrings

  /** A reading `{type, value, timestamp}` as built by a `sensorTypes` entry. */
  datatype Reading<N> = Reading(sensorType: string, value: N, timestamp: int)

  /** One `mqttClient.publish(topic, reading)` call. */
  datatype Publication<N> = Publication(topic: string, reading: Reading<N>)

  const TemperatureKey: string := "Temperature"
  const HumidityKey: string := "Humidity"

  /** The keys of the `sensorTypes` lookup in declaration order, the order `for…in` visits them. */
  const SensorTypes: seq<string> := [TemperatureKey, HumidityKey]

  /**
   * The builder stored under `key` in `sensorTypes`: the type is the key, the
   * value is parsed from the line with the first `"<key>: "` removed, and the
   * timestamp is the current clock.
   */
  function BuildReading<N>(key: string, line: string, now: int, parseFloat: string -> N): (r: Reading<N>)
    ensures r.sensorType == key && r.timestamp == now
    ensures !Includes(line, key + ": ") ==> r.value == parseFloat(line)
  {
    Reading(key, parseFloat(ReplaceFirst(line, key + ": ", "")), now)
  }

  /** The topic a reading is published on: `sensor/` followed by the lower-cased type. */
  function TopicOf(sensorType: string): (t: string)
    ensures |t| == |"sensor/"| + |sensorType|
    ensures t[..|"sensor/"|] == "sensor/"
    ensures forall i :: 0 <= i < |sensorType| ==> t[|"sensor/"| + i] == LowerChar(sensorType[i])
  {
    "sensor/" + ToLower(sensorType)
  }

  /** The first index at or after `from` whose key occurs in `line`. */
  function FirstMatchFrom(keys: seq<string>, line: string, from: nat): (r: Option<nat>)
    decreases |keys| - from
    ensures r.Some? ==> from <= r.value < |keys| && Includes(line, keys[r.value])
    ensures r.Some? ==> forall j :: from <= j < r.value ==> !Includes(line, keys[j])
    ensures r.None? <==> forall j :: from <= j < |keys| ==> !Includes(line, keys[j])
  {
    if from >= |keys| then None
    else if Includes(line, keys[from]) then Some(from)
    else FirstMatchFrom(keys, line, from + 1)
  }

  /** The publication a key produces for a line. */
  function PublicationFor<N>(key: string, line: string, now: int, parseFloat: string -> N): (p: Publication<N>)
    ensures p.reading.sensorType == key && p.reading.timestamp == now
    ensures p.topic == TopicOf(key)
  {
    var reading := BuildReading(key, line, now, parseFloat);
    Publication(TopicOf(reading.sensorType), reading)
  }

  /**
   * What `emitSensorData` publishes for one line, as a value: the publication
   * of the first key in `SensorTypes` that the line includes, or nothing.
   */
  function Classify<N>(line: string, now: int, parseFloat: string -> N): (r: Option<Publication<N>>)
    ensures r.None? <==> !Includes(line, TemperatureKey) && !Includes(line, HumidityKey)
    ensures Includes(line, TemperatureKey) ==> r == Some(PublicationFor(TemperatureKey, line, now, parseFloat))
    ensures !Includes(line, TemperatureKey) && Includes(line, HumidityKey) ==>
              r == Some(PublicationFor(HumidityKey, line, now, parseFloat))
  {
    assert SensorTypes[0] == TemperatureKey && SensorTypes[1] == HumidityKey;
    match FirstMatchFrom(SensorTypes, line, 0)
    case None => None
    case Some(i) => Some(PublicationFor(SensorTypes[i], line, now, parseFloat))
  }

  /**
   * `emitSensorData(line)`: walks `SensorTypes` in order, publishes for the
   * first key the line includes and stops. The returned sequence is the list
   * of publish calls made.
   */
  method EmitSensorData<N>(line: string, now: int, parseFloat: string -> N) returns (published: seq<Publication<N>>)
    ensures published == Classify(line, now, parseFloat).ToSeq()
  {
    published := [];
    var i := 0;
    while i < |SensorTypes|
      invariant 0 <= i <= |SensorTypes|
      invariant forall j :: 0 <= j < i ==> !Includes(line, SensorTypes[j])
      invariant published == []
    {
      var sensorType := SensorTypes[i];
      if Includes(line, sensorType) {
        ClassifyFirstMatch(line, i, now, parseFloat);
        var sensorData := BuildReading(sensorType, line, now, parseFloat);
        var topicName := TopicOf(sensorData.sensorType);
        published := published + [Publication(topicName, sensorData)];
        break;
      }
      i := i + 1;
    }
    if published == [] {
      ClassifyNoMatch(line, now, parseFloat);
    }
  }

  /** A line whose first included key is `SensorTypes[i]` is classified by that key. */
  lemma ClassifyFirstMatch<N>(line: string, i: nat, now: int, parseFloat: string -> N)
    requires i < |SensorTypes| && Includes(line, SensorTypes[i])
    requires forall j :: 0 <= j < i ==> !Includes(line, SensorTypes[j])
    ensures Classify(line, now, parseFloat) == Some(PublicationFor(SensorTypes[i], line, now, parseFloat))
  {
    var r := FirstMatchFrom(SensorTypes, line, 0);
    assert r == Some(i);
  }

  /** A line that includes no key is not classified. */
  lemma ClassifyNoMatch<N>(line: string, now: int, parseFloat: string -> N)
    requires forall j :: 0 <= j < |SensorTypes| ==> !Includes(line, SensorTypes[j])
    ensures Classify(line, now, parseFloat) == None
  {
    assert FirstMatchFrom(SensorTypes, line, 0) == None;
  }

  /** The lower-cased topics are exactly the two literal topics. */
  lemma KnownTopics()
    ensures TopicOf(TemperatureKey) == "sensor/temperature"
    ensures TopicOf(HumidityKey) == "sensor/humidity"
  {
    TemperatureTopicLowered();
    HumidityTopicLowered();
  }

  lemma TemperatureTopicLowered()
    ensures TopicOf(TemperatureKey) == "sensor/temperature"
  {
    TopicOfCapitalised('T', "emperature", TemperatureKey, "sensor/temperature");
  }

  lemma HumidityTopicLowered()
    ensures TopicOf(HumidityKey) == "sensor/humidity"
  {
    TopicOfCapitalised('H', "umidity", HumidityKey, "sensor/humidity");
  }

  /** The topic of a capitalised word `key` is `sensor/` followed by the word with its capital lowered. */
  lemma TopicOfCapitalised(c: char, rest: string, key: string, topic: string)
    requires key == [c] + rest && topic == "sensor/" + ([LowerChar(c)] + rest)
    requires forall i :: 0 <= i < |rest| ==> !('A' <= rest[i] <= 'Z')
    ensures TopicOf(key) == topic
  {
    ToLowerCapitalised(c, rest);
    TopicOfLowered(key, [LowerChar(c)] + rest);
  }

  lemma TopicOfLowered(key: string, lowered: string)
    requires ToLower(key) == lowered
    ensures TopicOf(key) == "sensor/" + lowered
  {
  }

  /**
   * Every publication has the matched key as its type, the clock value as its
   * timestamp, and one of the two literal topics, the one of its type.
   */
  lemma PublicationShape<N>(line: string, now: int, parseFloat: string -> N)
    ensures Classify(line, now, parseFloat).Some? ==>
      var p := Classify(line, now, parseFloat).value;
      && p.reading.timestamp == now
      && (p.reading.sensorType == TemperatureKey || p.reading.sensorType == HumidityKey)
      && Includes(line, p.reading.sensorType)
      && (p.reading.sensorType == TemperatureKey <==> p.topic == "sensor/temperature")
      && (p.reading.sensorType == HumidityKey <==> p.topic == "sensor/humidity")
      && p.reading.value == parseFloat(ReplaceFirst(line, p.reading.sensorType + ": ", ""))
  {
    KnownTopics();
    if Includes(line, TemperatureKey) {
      assert Classify(line, now, parseFloat) == Some(PublicationFor(TemperatureKey, line, now, parseFloat));
    } else if Includes(line, HumidityKey) {
      assert Classify(line, now, parseFloat) == Some(PublicationFor(HumidityKey, line, now, parseFloat));
    }
  }

  /**
   * Zero or one publication per line, none exactly when neither marker is
   * included; that the loop publishes exactly this list is the contract of
   * `EmitSensorData`.
   */
  lemma AtMostOnePublication<N>(line: string, now: int, parseFloat: string -> N)
    ensures Classify(line, now, parseFloat).ToSeq() == [] <==>
              !Includes(line, TemperatureKey) && !Includes(line, HumidityKey)
  {
  }

  /** A marker matches anywhere in the line, not only at its start; "Temperature" wins over "Humidity". */
  lemma TemperatureAnywhere<N>(pre: string, post: string, now: int, parseFloat: string -> N)
    ensures var r := Classify(pre + TemperatureKey + post, now, parseFloat);
      r.Some? && r.value.reading.sensorType == TemperatureKey && r.value.topic == "sensor/temperature"
  {
    IncludesInfix(pre, TemperatureKey, post);
    KnownTopics();
  }

  /** Any line that holds "Humidity" somewhere but not "Temperature" is a humidity reading. */
  lemma HumidityAnywhere<N>(pre: string, post: string, now: int, parseFloat: string -> N)
    requires !Includes(pre + HumidityKey + post, TemperatureKey)
    ensures var r := Classify(pre + HumidityKey + post, now, parseFloat);
      r.Some? && r.value.reading.sensorType == HumidityKey && r.value.topic == "sensor/humidity"
  {
    IncludesInfix(pre, HumidityKey, post);
    KnownTopics();
  }

  /**
   * A line of the form `"<Type>: " + text` hands exactly `text` to the parser.
   * For "Humidity" this needs `text` to be free of "Temperature", which is tried first.
   */
  lemma ValueAfterMarker<N>(key: string, text: string, now: int, parseFloat: string -> N)
    requires key == TemperatureKey || (key == HumidityKey && !Includes(key + ": " + text, TemperatureKey))
    ensures var r := Classify(key + ": " + text, now, parseFloat);
      && r.Some?
      && r.value.reading == Reading(key, parseFloat(text), now)
      && r.value.topic == TopicOf(key)
  {
    MarkerPrefixRemoved(key, text);
  }

  /** A line `key + ": " + text` includes `key`, and removing the first `key + ": "` leaves `text`. */
  lemma MarkerPrefixRemoved(key: string, text: string)
    ensures Includes(key + ": " + text, key)
    ensures ReplaceFirst(key + ": " + text, key + ": ", "") == text
  {
    var line := key + ": " + text;
    assert line == [] + key + (": " + text);
    IncludesInfix([], key, ": " + text);
    assert line == (key + ": ") + text;
    ReplaceFirstAtStart(key + ": ", text, "");
    assert "" + text == text;
  }

  /** When `"<Type>: "` is absent although the marker is present, the whole line goes to the parser. */
  lemma WholeLineParsedWithoutPrefix<N>(line: string, now: int, parseFloat: string -> N)
    requires Includes(line, TemperatureKey) && !Includes(line, TemperatureKey + ": ")
    ensures Classify(line, now, parseFloat).value.reading.value == parseFloat(line)
  {
  }

  /** The same for a humidity line: without `"Humidity: "` the whole line goes to the parser. */
  lemma WholeHumidityLineParsedWithoutPrefix<N>(line: string, now: int, parseFloat: string -> N)
    requires !Includes(line, TemperatureKey) && Includes(line, HumidityKey) && !Includes(line, HumidityKey + ": ")
    ensures Classify(line, now, parseFloat).value.reading.value == parseFloat(line)
  {
  }
}
