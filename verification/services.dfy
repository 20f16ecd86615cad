/** internal/services/bus_data_service.go: the service that persists the records the MQTT
    handler produces and answers the transport layer's queries by delegating to the store
    manager and the MQTT subscriber. */
module Services {
  import opened Models
  import opened InfluxDB
  import Mqtt

  /** busDataService. Geohash computation (config.GetGeohash) is passed to the operations that
      use it as a function from coordinates to a geohash or an error. */
  class BusDataService {
    const influxDBManager: BusDataManager
    const mqttBroker: Mqtt.BusDataSubscriber
    const dataChannel: DataChannel

    /** NewBusDataService, without starting processData on its own goroutine. */
    constructor (dbManager: BusDataManager, dataChannel: DataChannel, mqttSub: Mqtt.BusDataSubscriber)
      requires mqttSub.dataChannel == dataChannel
      ensures influxDBManager == dbManager && this.dataChannel == dataChannel && mqttBroker == mqttSub
      ensures mqttBroker.dataChannel == this.dataChannel
    {
      influxDBManager := dbManager;
      this.dataChannel := dataChannel;
      mqttBroker := mqttSub;
    }

    /** WriteBusData: the store manager's answer, which is nil whatever the write did. */
    method WriteBusData(data: BusData) returns (err: Option<Error>)
      requires influxDBManager.Valid()
      modifies influxDBManager
      ensures influxDBManager.Valid()
      ensures influxDBManager.attempts == old(influxDBManager.attempts) + [data]
      ensures influxDBManager.written == old(influxDBManager.written)
        + if influxDBManager.writeResult(|old(influxDBManager.attempts)|).None? then [NewPoint(data)] else []
      ensures err == None
    {
      err := influxDBManager.WriteToInfluxDB(data);
    }

    /** processData over the records queued on the channel: each is written exactly once, in
        the order received, and a failed write does not stop the loop (the store keeps the
        accepted ones, by Valid). Its error branch is unreachable, since WriteBusData always
        returns nil. */
    method ProcessData()
      requires influxDBManager.Valid()
      modifies dataChannel, influxDBManager
      ensures influxDBManager.Valid()
      ensures dataChannel.queue == []
      ensures influxDBManager.attempts == old(influxDBManager.attempts) + old(dataChannel.queue)
    {
      ghost var received := dataChannel.queue;
      ghost var attempts0 := influxDBManager.attempts;
      ghost var n := 0;
      while dataChannel.queue != []
        invariant 0 <= n <= |received|
        invariant dataChannel.queue == received[n..]
        invariant influxDBManager.Valid()
        invariant influxDBManager.attempts == attempts0 + received[..n]
        decreases |dataChannel.queue|
      {
        var busData := dataChannel.Receive();
        assert busData == received[n];
        var err := WriteBusData(busData);
        if err.Some? {
          assert false;
        }
        assert received[..n + 1] == received[..n] + [busData];
        n := n + 1;
      }
      assert received[..n] == received;
    }

    /** QueryBusesNear: when the geohash cannot be computed its error is returned and no query
        is made; otherwise FindBusesNear's answer for that geohash, unchanged. */
    method QueryBusesNear(lat: real, lon: real, getGeohash: (real, real) -> Result<string>)
      returns (r: Result<seq<BusData>>, ghost issued: seq<Filter>)
      requires getGeohash(lat, lon).Ok? ==>
        RowsCarry(RowsOf(influxDBManager.store(GeoHashHeadIs(getGeohash(lat, lon).value))), NearKeys, false)
      ensures getGeohash(lat, lon).Err? ==> r == Err(getGeohash(lat, lon).error)
      ensures getGeohash(lat, lon).Ok? ==> r == BusesNearResult(influxDBManager.store, getGeohash(lat, lon).value)
      ensures issued == if getGeohash(lat, lon).Err? then [] else [GeoHashHeadIs(getGeohash(lat, lon).value)]
    {
      var geohash := getGeohash(lat, lon);
      if geohash.Err? {
        return Err(geohash.error), [];
      }
      r, issued := influxDBManager.FindBusesNear(geohash.value);
    }

    /** SubscribeToBusUpdates: no subscription request when the geohash cannot be computed; a
        subscription to the geohash itself as topic otherwise. A refused subscription gives a
        nil channel and the error; an accepted one gives the channel shared by every client. */
    method SubscribeToBusUpdates(coords: ClientCoords, getGeohash: (real, real) -> Result<string>)
      returns (ch: DataChannel?, err: Option<Error>)
      modifies mqttBroker
      ensures var g := getGeohash(coords.Latitude, coords.Longitude);
        g.Err? ==> ch == null && err == Some(g.error) && mqttBroker.requests == old(mqttBroker.requests)
      ensures var g := getGeohash(coords.Latitude, coords.Longitude);
        g.Ok? ==> mqttBroker.requests == old(mqttBroker.requests) + [g.value]
      ensures var g := getGeohash(coords.Latitude, coords.Longitude);
        g.Ok? && mqttBroker.brokerReply(g.value).Some? ==>
          ch == null && err == Some(SubscribeFailed(g.value, mqttBroker.brokerReply(g.value).value))
      ensures var g := getGeohash(coords.Latitude, coords.Longitude);
        g.Ok? && mqttBroker.brokerReply(g.value).None? ==> ch == dataChannel && err == None
    {
      var geohashPosition := getGeohash(coords.Latitude, coords.Longitude);
      if geohashPosition.Err? {
        return null, Some(geohashPosition.error);
      }
      err := mqttBroker.SubscribeToTopic(geohashPosition.value);
      if err.Some? {
        return null, err;
      }
      ch := dataChannel;
    }

    /** GetBusQueryFromStops: FindBusesFromStops's answer, unchanged. */
    method GetBusQueryFromStops(stops: seq<BusData>) returns (busData: BusData, err: Option<Error>, ghost issued: seq<Filter>)
      requires StopRowsCarryVehicle(influxDBManager.store, stops)
      ensures busData == BusesFromStops(influxDBManager.store, stops).busData
      ensures err == BusesFromStops(influxDBManager.store, stops).err
      ensures issued == StopQueries(stops, BusesFromStops(influxDBManager.store, stops).queried)
    {
      busData, err, issued := influxDBManager.FindBusesFromStops(stops);
    }
  }
}
