# Sensor readings over MQTT: forwarder and chart feed

This project models the two pieces of logic in a small dashboard tutorial.
A server reads text lines from a serial device and republishes them as MQTT
messages. A browser page subscribes to those messages and draws them on a chart.

- **Forwarder** (`forwarder.dfy`, module `Forwarder`; server/index.ts). The
  `sensorTypes` lookup has two keys in declaration order, `"Temperature"` and then
  `"Humidity"`. `emitSensorData` looks for the first key that occurs anywhere in
  the line (`includes`). For that key it builds a reading `{type, value, timestamp}`:
  - `type` is the key;
  - `value` is `parseFloat` of the line with the first `"<key>: "` removed;
  - `timestamp` is the clock.

  It then publishes the reading once on `"sensor/" + type.toLowerCase()` and stops.
  `Classify` is that behaviour as a pure function. `EmitSensorData` is the same
  `for…in` loop with its `break`, and its contract shows it computes `Classify`.
  The JavaScript string operations it relies on (`includes`, `replace` with a
  string pattern and a replacement inserted literally, `toLowerCase`) are in
  `jsstrings.dfy`, module `JsStrings`.
- **Dashboard** (`dashboard.dfy`, module `Dashboard`; client/index.ts). The class
  `ChartFeed` holds the state of the `handleSensorData` message callback:
  - `sensorData[0]` (temperature) and `sensorData[1]` (humidity), both empty at first;
  - the list of every `updateSeries` argument;
  - a ghost history of the messages received.

  `HandleMessage` routes a message by topic. On a known topic it appends one
  entry whose value is floored. An unknown topic changes neither buffer. Either
  way it then records one `updateSeries` call with both buffers mapped to
  `{x: timestamp, y: value}`. The invariant `Valid` says that update number `i`
  showed both buffers as they were after message `i`. The checkbox handlers are
  `OnCheckboxChange`, which returns a subscribe or unsubscribe action.
- **Pipeline** (`pipeline.dfy`) connects the two. A classified line, delivered
  with its payload unchanged, lands in the buffer for its own sensor type.

The series positions follow the code. `updateSeries` puts temperature at
index 0 and humidity at index 1 (client/index.ts:63-76). The chart
configuration, however, names series 0 "Humidity" and series 1 "Temperature"
(client/settings/chartSettings.ts:2-11). The model keeps the positions as the
code has them.

The model follows the code:
- Buffers only grow, and the checkboxes only issue requests; the code keeps no subscription state.
- The client copies `type` from the payload, which the server fills with a string. The client interface declares `type` as a number, but the model keeps it as a string.

`moment().unix()` becomes the parameter `now`. `parseFloat` becomes a
function parameter whose result type `N` is left uninterpreted. The broker
publish, `updateSeries` and subscribe/unsubscribe become returned or recorded
values.

## Model

| member | source | states |
|---|---|---|
| JsStrings.IndexOfFrom | server/index.ts:74 | the result is the first occurrence of the pattern at or after the start position, and None means there is no occurrence there |
| JsStrings.IndexOf | server/index.ts:32 | the first occurrence of the pattern in the string, or None exactly when it occurs nowhere |
| JsStrings.Includes | server/index.ts:74 | `includes` holds exactly when some position of the line starts the marker |
| JsStrings.IncludesInfix | server/index.ts:74 | a line with the marker anywhere in it, not only at the start, includes the marker |
| JsStrings.ReplaceFirst | server/index.ts:32 | with no occurrence the line is unchanged; otherwise one occurrence's length is traded for the replacement's, which is inserted literally |
| JsStrings.ReplaceFirstAtStart | server/index.ts:32 | a line that starts with the pattern loses exactly that leading pattern |
| JsStrings.ReplaceFirstSplits | server/index.ts:37 | when `i` is the first position of the pattern, the result is the text before `i`, then the replacement, then everything after that occurrence: only the first occurrence is replaced |
| JsStrings.LowerChar | server/index.ts:76 | ASCII capitals map to their lower-case letters; every other character is unchanged |
| JsStrings.ToLower | server/index.ts:76 | same length, each character lowered individually |
| JsStrings.ToLowerWithoutCapitals | server/index.ts:76 | a string without capitals is its own lower case |
| JsStrings.ToLowerCapitalised | server/index.ts:76 | lower-casing a capitalised word changes only its first letter |
| Forwarder.BuildReading | server/index.ts:30-39 | a `sensorTypes` builder gives the reading its key as type and the clock as timestamp; a line without `"<key>: "` is parsed whole |
| Forwarder.TopicOf | server/index.ts:76 | the topic is `sensor/` followed by the type with each character lowered |
| Forwarder.PublicationFor | server/index.ts:75-77 | the publication for a key carries that key as type, the clock as timestamp, and the topic derived from the key |
| Forwarder.FirstMatchFrom | server/index.ts:73-75 | the index returned is the first key, in declaration order, included in the line; None exactly when no remaining key is included |
| Forwarder.Classify | server/index.ts:29-84 | the keys are tried in declaration order: nothing is published exactly when neither marker is included; "Temperature" wins whenever it is included; otherwise "Humidity" is used when it is included |
| Forwarder.ClassifyFirstMatch | server/index.ts:73-75 | a line whose first included key, in declaration order, is key `i` is classified by key `i` |
| Forwarder.ClassifyNoMatch | server/index.ts:73-84 | a line that includes no key produces nothing |
| Forwarder.EmitSensorData | server/index.ts:72-84 | the loop publishes exactly the zero or one publication that `Classify` gives |
| Forwarder.KnownTopics | server/index.ts:76 | the derived topics are exactly "sensor/temperature" and "sensor/humidity" |
| Forwarder.PublicationShape | server/index.ts:29-40 | a publication's type is the included marker, its timestamp is the clock, its value is parsed from the line with the first `"<type>: "` removed, and its topic is the literal topic of its type |
| Forwarder.AtMostOnePublication | server/index.ts:73-84 | the publication list (at most one element, by `Option.ToSeq`) is empty exactly when neither marker is included |
| Forwarder.TemperatureAnywhere | server/index.ts:73-75 | a line with "Temperature" anywhere in it is a temperature reading on "sensor/temperature", even if it also says "Humidity" |
| Forwarder.HumidityAnywhere | server/index.ts:73-75 | a line with "Humidity" anywhere and no "Temperature" is a humidity reading on "sensor/humidity" |
| Forwarder.ValueAfterMarker | server/index.ts:30-39 | the line `"<Type>: " + text` hands exactly `text` to the parser and is stamped with the clock; for Humidity only when no "Temperature" is included |
| Forwarder.MarkerPrefixRemoved | server/index.ts:32 | the line `key + ": " + text` includes the key, and removing the first `key + ": "` leaves exactly `text` |
| Forwarder.WholeLineParsedWithoutPrefix | server/index.ts:32 | when the marker occurs but not as `"Temperature: "`, the whole line goes to the parser |
| Forwarder.WholeHumidityLineParsedWithoutPrefix | server/index.ts:37 | a humidity line (no "Temperature") without `"Humidity: "` is parsed whole |
| Dashboard.Stored | client/index.ts:45-49 | the stored entry keeps the payload's type and timestamp and holds the floor of its value |
| Dashboard.ToPoints | client/index.ts:65-68 | one point per buffer entry, in order, with x the timestamp and y the value |
| Dashboard.SeriesList | client/index.ts:63-76 | two series: index 0 from the temperature buffer and index 1 from the humidity buffer, each with the same length and order as its buffer |
| Dashboard.BufferOfSnoc | client/index.ts:43-61 | one more message appends its stored payload to its own topic's buffer and leaves every other topic's buffer unchanged |
| Dashboard.BufferOfConcat | client/index.ts:43-61 | the buffer for a concatenated history is the concatenation of the two buffers, so arrival order is kept |
| Dashboard.BufferOfOtherTopics | client/index.ts:43-61 | messages on other topics never enter a buffer |
| Dashboard.BufferOfEntries | client/index.ts:44-58 | every buffer entry is the stored payload of a message on that topic, and no buffer has more entries than there are messages |
| Dashboard.ConsistentAfterMessage | client/index.ts:43-76 | handling one message keeps the invariant: the buffers stay the stored readings of their topics, and the new update shows both new buffers |
| Dashboard.ChartFeed.constructor | client/index.ts:36 | both buffers start empty and nothing has been drawn |
| Dashboard.ChartFeed.HandleMessage | client/index.ts:38-78 | a temperature message appends to buffer 0 only; a humidity message appends to buffer 1 only; any other topic changes neither; every message adds exactly one update with both buffers in full; the invariant is kept |
| Dashboard.LatestUpdateShowsBuffers | client/index.ts:63-76 | the last update shows the current buffers, with temperature at index 0 |
| Dashboard.TwoMessagesOnOneTopic | client/index.ts:43-61 | two messages on one topic fill that buffer in arrival order and leave the other empty |
| Dashboard.TwoTemperatureReadings | client/index.ts:44-76 | two temperature messages give a buffer of both floored readings, and the two updates show one and then two points |
| Dashboard.OnCheckboxChange | client/index.ts:119-137 | checked issues a subscribe, and unchecked an unsubscribe, for that checkbox's topic |
| Dashboard.CheckboxTopic | client/index.ts:119-137 | the temperature checkbox controls exactly "sensor/temperature" and the humidity checkbox exactly "sensor/humidity" |
| Dashboard.SubscribeAllTopics | client/index.ts:30-33 | start-up makes exactly two subscriptions, temperature first and then humidity, and no other request |
| Dashboard.CheckboxTopicsAreRouted | client/index.ts:87-100 | each checkbox controls one of the two routed topics, and the two checkboxes control different topics |
| Pipeline.PublishedLineReachesItsBuffer | client/index.ts:43-61 | a published line reaches buffer 0 when it includes "Temperature" and buffer 1 otherwise, as one new last entry stamped with the classification time; the other buffer stays the same |

## Left out
- JsStrings.ReplaceFirst: the replacement is inserted literally; JavaScript's `$` patterns (`$&`, `$$` and the like) are not modelled, and the forwarder only replaces with the empty string.
- MQTT client library (`mqtt.connect`, `publish`, `subscribe`, `unsubscribe`, `on("message")`): foreign calls, modelled only as returned or recorded values.
- Broker delivery and duplicate suppression are broker behaviour: `Pipeline.Delivered` assumes a publication arrives once with its payload unchanged.
- `JSON.stringify` and `JSON.parse` of payloads: the client receives an already decoded payload. This loses two facts: `JSON.stringify` turns a NaN value into `null`, and the client parses the payload again for each field.
- `parseFloat`, NaN and IEEE arithmetic: floating-point parsing, a function parameter with an uninterpreted result.
- Dashboard.Stored: `Math.floor` is modelled as the floor of a real number, not of an IEEE double. NaN and infinities are not covered.
- JsStrings.ToLower: lowers only ASCII capitals, where JavaScript's `toLowerCase` covers all of Unicode. Only the two constant keys reach it.
- `moment().unix()`: the wall clock is the parameter `now`.
- SerialPort, ReadlineParser line splitting, the express static server, `http.listen` and `console.log`: I/O; lines are supplied by the caller.
- ApexCharts `render`, the chart configuration and its time formatter (client/settings/chartSettings.ts), and webpack.config.js: configuration with no logic. The configuration is mentioned above only for its series names.
- The `MqttConnection` / `CustomMqttConnection` class hierarchy, the connection name and creation time, and the DOM lookups: structure only. Only the mapping from the checkbox's `checked` state to an action is modelled.
