/**
 * The browser dashboard of client/index.ts: every broker message is routed
 * by topic into one of two buffers (temperature is buffer 0, humidity is
 * buffer 1), and after every message, routed or not, the chart receives one
 * `updateSeries` call carrying both buffers in full as `{x, y}` points.
 * The subscription checkboxes map their `checked` state to a subscribe or an
 * unsubscribe action.
 *
 * The broker client, the chart widget and the DOM are not modelled: the
 * message payload arrives already decoded, and the `updateSeries` calls and
 * the subscription requests are recorded as values.
 */
module Dashboard {

  const TemperatureTopic: string := "sensor/temperature"
  const HumidityTopic: string := "sensor/humidity"

  /** A decoded message payload `{type, value, timestamp}`. */
  datatype Payload = Payload(sensorType: string, value: real, timestamp: int)

  /** One broker message as the `on("message")` callback sees it. */
  datatype Message = Message(topic: string, payload: Payload)

  /** An entry of a buffer: the payload with its value floored. */
  datatype SensorData = SensorData(sensorType: string, value: int, timestamp: int)

  /** One chart point `{x: timestamp, y: value}`. */
  datatype Point = Point(x: int, y: int)

  /** One element of the `updateSeries` argument, `{data: [...]}`. */
  datatype Series = Series(data: seq<Point>)

  /** The entry pushed for a payload: type and timestamp kept, value passed through `Math.floor`. */
  function Stored(p: Payload): (d: SensorData)
    ensures d.sensorType == p.sensorType && d.timestamp == p.timestamp
    ensures d.value as real <= p.value < d.value as real + 1.0
  {
    SensorData(p.sensorType, p.value.Floor, p.timestamp)
  }

  /** `buffer.map(item => ({x: item.timestamp, y: item.value}))`. */
  function ToPoints(buffer: seq<SensorData>): (points: seq<Point>)
    ensures |points| == |buffer|
    ensures forall i :: 0 <= i < |buffer| ==> points[i] == Point(buffer[i].timestamp, buffer[i].value)
  {
    if buffer == [] then [] else [Point(buffer[0].timestamp, buffer[0].value)] + ToPoints(buffer[1..])
  }

  /** The argument of `updateSeries`: series 0 from buffer 0, series 1 from buffer 1. */
  function SeriesList(temperature: seq<SensorData>, humidity: seq<SensorData>): (r: seq<Series>)
    ensures |r| == 2
    ensures |r[0].data| == |temperature| && |r[1].data| == |humidity|
    ensures forall i :: 0 <= i < |temperature| ==>
              r[0].data[i].x == temperature[i].timestamp && r[0].data[i].y == temperature[i].value
    ensures forall i :: 0 <= i < |humidity| ==>
              r[1].data[i].x == humidity[i].timestamp && r[1].data[i].y == humidity[i].value
  {
    [Series(ToPoints(temperature)), Series(ToPoints(humidity))]
  }

  /** The entry a message adds to the buffer of `topic`: none, unless the message is on that topic. */
  function Appended(topic: string, m: Message): seq<SensorData>
  {
    if m.topic == topic then [Stored(m.payload)] else []
  }

  /** The buffer for `topic` after the messages `history`: the stored payloads of that topic, in arrival order. */
  function BufferOf(history: seq<Message>, topic: string): seq<SensorData>
  {
    if history == [] then []
    else
      var last := history[|history| - 1];
      BufferOf(history[..|history| - 1], topic) + Appended(topic, last)
  }

  /** One more message adds at most its own entry, at the end of its topic's buffer. */
  lemma BufferOfSnoc(history: seq<Message>, m: Message, topic: string)
    ensures BufferOf(history + [m], topic) ==
              BufferOf(history, topic) + Appended(topic, m)
  {
    assert (history + [m])[..|history + [m]| - 1] == history;
  }

  /** The buffer of a concatenated history is the concatenation of the buffers. */
  lemma {:induction false} BufferOfConcat(h1: seq<Message>, h2: seq<Message>, topic: string)
    ensures BufferOf(h1 + h2, topic) == BufferOf(h1, topic) + BufferOf(h2, topic)
    decreases |h2|
  {
    if h2 == [] {
      assert h1 + h2 == h1;
    } else {
      var front, last := h2[..|h2| - 1], h2[|h2| - 1];
      assert h2 == front + [last];
      assert h1 + h2 == (h1 + front) + [last];
      calc {
        BufferOf(h1 + h2, topic);
        { BufferOfSnoc(h1 + front, last, topic); }
        BufferOf(h1 + front, topic) + Appended(topic, last);
        { BufferOfConcat(h1, front, topic); }
        BufferOf(h1, topic) + BufferOf(front, topic) + Appended(topic, last);
        { BufferOfSnoc(front, last, topic); }
        BufferOf(h1, topic) + BufferOf(h2, topic);
      }
    }
  }

  /** Messages on other topics never enter a buffer: a history without `topic` leaves it empty. */
  lemma {:induction false} BufferOfOtherTopics(history: seq<Message>, topic: string)
    requires forall i :: 0 <= i < |history| ==> history[i].topic != topic
    ensures BufferOf(history, topic) == []
    decreases |history|
  {
    if history != [] {
      BufferOfOtherTopics(history[..|history| - 1], topic);
    }
  }

  /** `d` is the stored payload of some message on `topic` in `history`. */
  ghost predicate StoredFrom(history: seq<Message>, topic: string, d: SensorData)
  {
    exists i :: 0 <= i < |history| && history[i].topic == topic && d == Stored(history[i].payload)
  }

  /** Each entry of a buffer is the stored payload of some message on that topic, and there are no more entries than messages. */
  lemma {:induction false} BufferOfEntries(history: seq<Message>, topic: string)
    ensures |BufferOf(history, topic)| <= |history|
    ensures forall k :: 0 <= k < |BufferOf(history, topic)| ==> StoredFrom(history, topic, BufferOf(history, topic)[k])
    decreases |history|
  {
    if history != [] {
      var front, last := history[..|history| - 1], history[|history| - 1];
      assert history == front + [last];
      BufferOfEntries(front, topic);
      BufferOfSnoc(front, last, topic);
      var b, bf := BufferOf(history, topic), BufferOf(front, topic);
      forall k | 0 <= k < |b|
        ensures StoredFrom(history, topic, b[k])
      {
        if k < |bf| {
          assert b[k] == bf[k];
          assert StoredFrom(front, topic, bf[k]);
          var i :| 0 <= i < |front| && front[i].topic == topic && bf[k] == Stored(front[i].payload);
          assert history[i] == front[i];
        } else {
          assert last.topic == topic && b[k] == Stored(last.payload);
          assert history[|history| - 1] == last;
        }
      }
    }
  }

  /** A history keeps its prefixes when it grows by one message. */
  lemma PrefixOfSnoc(history: seq<Message>, m: Message, n: nat)
    requires n <= |history|
    ensures (history + [m])[..n] == history[..n]
  {
  }

  /** The two routed topics are different strings. */
  lemma TopicsDiffer()
    ensures TemperatureTopic != HumidityTopic
  {
    assert TemperatureTopic[7] != HumidityTopic[7];
  }

  /** The `updateSeries` argument the chart receives after the first `n` messages. */
  function SnapshotAfter(history: seq<Message>, n: nat): seq<Series>
    requires n <= |history|
  {
    SeriesList(BufferOf(history[..n], TemperatureTopic), BufferOf(history[..n], HumidityTopic))
  }

  /**
   * The buffers are the stored readings of their topics after `received`,
   * and update `i` showed both buffers as they were after message `i`.
   */
  ghost predicate Consistent(temperature: seq<SensorData>, humidity: seq<SensorData>,
                             updates: seq<seq<Series>>, received: seq<Message>)
  {
    && temperature == BufferOf(received, TemperatureTopic)
    && humidity == BufferOf(received, HumidityTopic)
    && |updates| == |received|
    && forall i :: 0 <= i < |updates| ==> updates[i] == SnapshotAfter(received, i + 1)
  }

  /**
   * Handling one message keeps the buffers and the updates consistent with
   * the messages received: each buffer grows by the message's entry if it is
   * on the buffer's topic, and one update showing both new buffers is added.
   */
  lemma ConsistentAfterMessage(temperature: seq<SensorData>, humidity: seq<SensorData>,
                               updates: seq<seq<Series>>, received: seq<Message>, m: Message)
    requires Consistent(temperature, humidity, updates, received)
    ensures var t, h := temperature + Appended(TemperatureTopic, m), humidity + Appended(HumidityTopic, m);
      Consistent(t, h, updates + [SeriesList(t, h)], received + [m])
  {
    var t, h := temperature + Appended(TemperatureTopic, m), humidity + Appended(HumidityTopic, m);
    var updates', received' := updates + [SeriesList(t, h)], received + [m];
    BufferOfSnoc(received, m, TemperatureTopic);
    BufferOfSnoc(received, m, HumidityTopic);
    assert received'[..|received'|] == received';
    forall i | 0 <= i < |updates'|
      ensures updates'[i] == SnapshotAfter(received', i + 1)
    {
      if i < |updates| {
        PrefixOfSnoc(received, m, i + 1);
      }
    }
  }

  /**
   * The state of `handleSensorData`'s message callback: `sensorData[0]` and
   * `sensorData[1]`, and the list of every `updateSeries` argument so far.
   */
  class ChartFeed {
    /** `sensorData[0]`, fed by "sensor/temperature". */
    var temperature: seq<SensorData>
    /** `sensorData[1]`, fed by "sensor/humidity". */
    var humidity: seq<SensorData>
    /** The argument of each `updateSeries` call, oldest first. */
    var updates: seq<seq<Series>>
    /** Every message handled so far, in arrival order. */
    ghost var received: seq<Message>

    ghost predicate Valid()
      reads this
    {
      Consistent(temperature, humidity, updates, received)
    }

    /** `const sensorData = [[], []]`: both buffers start empty and nothing has been drawn. */
    constructor ()
      ensures Valid()
      ensures temperature == [] && humidity == [] && updates == [] && received == []
    {
      temperature, humidity, updates := [], [], [];
      received := [];
    }

    /**
     * The `on("message")` callback: the message's topic selects the buffer
     * that receives its stored payload (none for an unknown topic), then
     * exactly one `updateSeries` call carries both buffers.
     */
    method HandleMessage(topic: string, payload: Payload)
      requires Valid()
      modifies this
      ensures Valid()
      ensures received == old(received) + [Message(topic, payload)]
      ensures temperature == if topic == TemperatureTopic then old(temperature) + [Stored(payload)] else old(temperature)
      ensures humidity == if topic == HumidityTopic then old(humidity) + [Stored(payload)] else old(humidity)
      ensures updates == old(updates) + [SeriesList(temperature, humidity)]
    {
      TopicsDiffer();
      ConsistentAfterMessage(temperature, humidity, updates, received, Message(topic, payload));
      if topic == TemperatureTopic {
        temperature := temperature + [Stored(payload)];
      } else if topic == HumidityTopic {
        humidity := humidity + [Stored(payload)];
      }
      updates := updates + [SeriesList(temperature, humidity)];
      received := received + [Message(topic, payload)];
    }
  }

  /** The last `updateSeries` call shows the two buffers as they are now, temperature at index 0. */
  lemma LatestUpdateShowsBuffers(feed: ChartFeed)
    requires feed.Valid() && |feed.updates| > 0
    ensures feed.updates[|feed.updates| - 1] == SeriesList(feed.temperature, feed.humidity)
  {
    assert feed.received[..|feed.received|] == feed.received;
  }

  /** The two subscription checkboxes of the page. */
  datatype Checkbox = TemperatureSubscription | HumiditySubscription

  /** A request to the broker client. */
  datatype SubscriptionAction = Subscribe(topic: string) | Unsubscribe(topic: string)

  /** The topic each checkbox controls. */
  function CheckboxTopic(box: Checkbox): (t: string)
    ensures box == TemperatureSubscription <==> t == TemperatureTopic
    ensures box == HumiditySubscription <==> t == HumidityTopic
  {
    TopicsDiffer();
    match box
    case TemperatureSubscription => TemperatureTopic
    case HumiditySubscription => HumidityTopic
  }

  /** A checkbox `change` event: checked subscribes to its topic, unchecked unsubscribes from it. */
  function OnCheckboxChange(box: Checkbox, checked: bool): (a: SubscriptionAction)
    ensures a.topic == CheckboxTopic(box)
    ensures a.Subscribe? <==> checked
    ensures a.Unsubscribe? <==> !checked
  {
    if checked then Subscribe(CheckboxTopic(box)) else Unsubscribe(CheckboxTopic(box))
  }

  /** `subscribeAllTopics`: the two subscriptions made at start-up. */
  function SubscribeAllTopics(): (actions: seq<SubscriptionAction>)
    ensures actions == [Subscribe(CheckboxTopic(TemperatureSubscription)), Subscribe(CheckboxTopic(HumiditySubscription))]
  {
    [Subscribe(TemperatureTopic), Subscribe(HumidityTopic)]
  }

  /** Every topic a checkbox controls is one that the message callback routes to a buffer, and the two differ. */
  lemma CheckboxTopicsAreRouted(box: Checkbox)
    ensures CheckboxTopic(box) == TemperatureTopic || CheckboxTopic(box) == HumidityTopic
    ensures CheckboxTopic(TemperatureSubscription) != CheckboxTopic(HumiditySubscription)
  {
    TopicsDiffer();
  }

  /** Two messages on one topic fill that topic's buffer in arrival order and no other buffer. */
  lemma TwoMessagesOnOneTopic(m1: Message, m2: Message, topic: string, other: string)
    requires m1.topic == topic && m2.topic == topic && other != topic
    ensures BufferOf([m1, m2], topic) == [Stored(m1.payload), Stored(m2.payload)]
    ensures BufferOf([m1, m2], other) == []
    ensures BufferOf([m1, m2][..1], topic) == [Stored(m1.payload)]
  {
    assert [m1, m2][..1] == [] + [m1];
    assert [m1, m2] == [m1] + [m2];
    BufferOfSnoc([], m1, topic);
    BufferOfSnoc([], m1, other);
    BufferOfSnoc([m1], m2, topic);
    BufferOfSnoc([m1], m2, other);
  }

  /**
   * Two temperature messages: the buffer holds both floored readings in
   * order, and the two charts drawn each showed the buffer of their time.
   */
  lemma TwoTemperatureReadings(history: seq<Message>)
    requires history == [Message(TemperatureTopic, Payload("Temperature", 23.0, 1000)),
                         Message(TemperatureTopic, Payload("Temperature", 24.5, 1005))]
    ensures BufferOf(history, TemperatureTopic) == [SensorData("Temperature", 23, 1000), SensorData("Temperature", 24, 1005)]
    ensures BufferOf(history, HumidityTopic) == []
    ensures SnapshotAfter(history, 1)[0].data == [Point(1000, 23)]
    ensures SnapshotAfter(history, 2)[0].data == [Point(1000, 23), Point(1005, 24)]
  {
    TopicsDiffer();
    TwoMessagesOnOneTopic(history[0], history[1], TemperatureTopic, HumidityTopic);
    assert history[..2] == history;
  }
}
