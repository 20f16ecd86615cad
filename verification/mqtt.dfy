/** The MQTT side: decoding a vehicle-position topic into a BusData record, and the
    subscriber whose message handler feeds the shared data channel. */
module Mqtt {
  import opened Models
  import Strings

  /** A topic parseTopic can index: splitting on '/' yields at least 20 parts. With fewer the
      Go code indexes past the end of the slice and panics; nothing checks beforehand. */
  predicate Decodable(topic: string)
  {
    |Strings.Split(topic, '/')| >= 20
  }

  /** parseTopic: parts[1] .. parts[19] become the 19 attributes in declaration order.
      parts[0] (the empty text before the leading '/') and parts from index 20 on are unused. */
  function ParseTopic(topic: string): (b: BusData)
    requires Decodable(topic)
    ensures forall i :: 0 <= i < 19 ==> '/' !in Fields(b)[i]
  {
    var parts := Strings.Split(topic, '/');
    BusData(
      FeedFormat := parts[1],
      Type := parts[2],
      FeedID := parts[3],
      AgencyID := parts[4],
      AgencyName := parts[5],
      Mode := parts[6],
      RouteID := parts[7],
      DirectionID := parts[8],
      TripHeadsign := parts[9],
      TripID := parts[10],
      NextStop := parts[11],
      StartTime := parts[12],
      VehicleID := parts[13],
      GeohashHead := parts[14],
      GeohashFirstDeg := parts[15],
      GeohashSecondDeg := parts[16],
      GeohashThirdDeg := parts[17],
      ShortName := parts[18],
      Color := parts[19])
  }

  /** The topic a record is published under: a leading '/', then the 19 attributes joined by '/'. */
  function TopicOf(b: BusData): string
  {
    "/" + Strings.Join(Fields(b), '/')
  }

  /** The attributes of a decoded record are parts 1 to 19 of the split topic, in order. */
  lemma ParseTopicFields(topic: string)
    requires Decodable(topic)
    ensures Fields(ParseTopic(topic)) == Strings.Split(topic, '/')[1..20]
  {
  }

  /** Parts 0 and 20 onwards do not matter: topics that agree on parts 1 to 19 decode alike. */
  lemma ParseTopicUsesOnlyParts1To19(t1: string, t2: string)
    requires Decodable(t1) && Decodable(t2)
    requires Strings.Split(t1, '/')[1..20] == Strings.Split(t2, '/')[1..20]
    ensures ParseTopic(t1) == ParseTopic(t2)
  {
    ParseTopicFields(t1);
    ParseTopicFields(t2);
    FieldsInjective(ParseTopic(t1), ParseTopic(t2));
  }

  /** A topic with trailing parts decodes like its first 20 parts rejoined. */
  lemma ParseTopicIgnoresTrailing(topic: string)
    requires Decodable(topic)
    ensures Decodable(Strings.Join(Strings.Split(topic, '/')[..20], '/'))
    ensures ParseTopic(Strings.Join(Strings.Split(topic, '/')[..20], '/')) == ParseTopic(topic)
  {
    var parts := Strings.Split(topic, '/');
    var head := parts[..20];
    assert Strings.SepFree(head, '/') by {
      forall i | 0 <= i < 20 ensures '/' !in head[i] { assert head[i] == parts[i]; }
    }
    Strings.SplitJoin(head, '/');
    assert head[1..20] == parts[1..20];
    ParseTopicUsesOnlyParts1To19(Strings.Join(head, '/'), topic);
  }

  /** Round trip from the topic: a topic of exactly 20 parts that starts with '/' is
      reproduced by publishing its decoded record. */
  lemma TopicOfParseTopic(topic: string)
    requires |Strings.Split(topic, '/')| == 20 && Strings.Split(topic, '/')[0] == ""
    ensures TopicOf(ParseTopic(topic)) == topic
  {
    var parts := Strings.Split(topic, '/');
    ParseTopicFields(topic);
    Strings.JoinSplit(topic, '/');
    assert parts == [""] + parts[1..20];
    assert Strings.Join(parts, '/') == "" + "/" + Strings.Join(parts[1..20], '/');
  }

  /** Round trip from the record: a record whose attributes hold no '/' decodes back from
      its topic. */
  lemma ParseTopicOfTopicOf(b: BusData)
    requires Strings.SepFree(Fields(b), '/')
    ensures Decodable(TopicOf(b))
    ensures ParseTopic(TopicOf(b)) == b
  {
    var j := Strings.Join(Fields(b), '/');
    Strings.SplitJoin(Fields(b), '/');
    Strings.SplitCons("", j, '/');
    assert TopicOf(b) == "" + ['/'] + j;
    assert Strings.Split(TopicOf(b), '/') == [""] + Fields(b);
    ParseTopicFields(TopicOf(b));
    FieldsInjective(ParseTopic(TopicOf(b)), b);
  }

  /** An example vehicle-position topic, taken as its 20 parts: it decodes to vehicle Bus42 in
      geohash cell 60;24, each part landing in its attribute. */
  lemma ExampleTopicDecoded(topic: string)
    requires Strings.Split(topic, '/') == [""] + ["gtfsrt", "vp", "fi", "HSL", "HSL", "bus", "1001", "0", "Center", "T1", "StopA", "08:00:00", "Bus42", "60;24", "1", "2", "3", "1", "red"]
    ensures Decodable(topic)
    ensures ParseTopic(topic) == BusData("gtfsrt", "vp", "fi", "HSL", "HSL", "bus", "1001", "0", "Center", "T1", "StopA", "08:00:00", "Bus42", "60;24", "1", "2", "3", "1", "red")
    ensures ParseTopic(topic).VehicleID == "Bus42" && ParseTopic(topic).GeohashHead == "60;24"
  {
  }

  /** busDataSubscriber: a connected MQTT client and the channel its handler sends to.
      The broker is an oracle: `brokerReply(topic)` is the error text the broker gives for a
      subscription request, or None when it accepts it. */
  class BusDataSubscriber {
    const dataChannel: DataChannel
    const brokerReply: string -> Option<string>
    /** Every subscription request made, in order. */
    var requests: seq<string>

    constructor (dataChannel: DataChannel, brokerReply: string -> Option<string>)
      ensures this.dataChannel == dataChannel && this.brokerReply == brokerReply
      ensures requests == []
    {
      this.dataChannel := dataChannel;
      this.brokerReply := brokerReply;
      requests := [];
    }

    /** SubscribeToTopic: one subscription request; a refusal is wrapped with the topic. */
    method SubscribeToTopic(topic: string) returns (err: Option<Error>)
      modifies this
      ensures requests == old(requests) + [topic]
      ensures brokerReply(topic).None? ==> err == None
      ensures brokerReply(topic).Some? ==> err == Some(SubscribeFailed(topic, brokerReply(topic).value))
    {
      requests := requests + [topic];
      match brokerReply(topic)
      case None => err := None;
      case Some(cause) => err := Some(SubscribeFailed(topic, cause));
    }

    /** ListenToAllTopics: one subscription request for the wildcard topic "#"; a refusal is
        only printed, nothing is returned. */
    method ListenToAllTopics()
      modifies this
      ensures requests == old(requests) + ["#"]
    {
      requests := requests + ["#"];
    }

    /** mqttMessageHandler: the payload is ignored; the record decoded from the topic is
        sent on the data channel, exactly one per message. */
    method MqttMessageHandler(topic: string, payload: seq<bv8>)
      requires Decodable(topic)
      modifies dataChannel
      ensures dataChannel.queue == old(dataChannel.queue) + [ParseTopic(topic)]
    {
      var busData := ParseTopic(topic);
      dataChannel.Send(busData);
    }
  }
}
