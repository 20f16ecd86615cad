/** The decoded vehicle-position record, the errors the core reports, and the channel that
    carries records from the MQTT handler to the persistence loop. */
module Models {

  datatype Option<T> = None | Some(value: T)

  /** The errors that reach a caller. Causes coming from foreign code are kept as text. */
  datatype Error =
    | InvalidLatitude(latitude: string)        // strconv.ParseFloat rejected the latitude text
    | InvalidLongitude(longitude: string)      // strconv.ParseFloat rejected the longitude text
    | SubscribeFailed(topic: string, cause: string)  // the broker refused a subscription
    | StoreFailed(cause: string)               // the store rejected a query or broke its result stream
    | GeohashFailed(cause: string)             // config.GetGeohash failed

  /** A value, or the error a Go function returns beside its zero value. */
  datatype Result<T> = Ok(value: T) | Err(error: Error)

  /** models.BusData: one vehicle-position update, every attribute a string. */
  datatype BusData = BusData(
    FeedFormat: string,
    Type: string,
    FeedID: string,
    AgencyID: string,
    AgencyName: string,
    Mode: string,
    RouteID: string,
    DirectionID: string,
    TripHeadsign: string,
    TripID: string,
    NextStop: string,
    StartTime: string,
    VehicleID: string,
    GeohashHead: string,
    GeohashFirstDeg: string,
    GeohashSecondDeg: string,
    GeohashThirdDeg: string,
    ShortName: string,
    Color: string)

  /** Go's zero-valued BusData: every attribute empty. */
  function Zero(): BusData
  {
    BusData("", "", "", "", "", "", "", "", "", "", "", "", "", "", "", "", "", "", "")
  }

  /** The 19 attributes in declaration order. */
  function Fields(b: BusData): (fs: seq<string>)
    ensures |fs| == 19
  {
    [b.FeedFormat, b.Type, b.FeedID, b.AgencyID, b.AgencyName, b.Mode, b.RouteID,
     b.DirectionID, b.TripHeadsign, b.TripID, b.NextStop, b.StartTime, b.VehicleID,
     b.GeohashHead, b.GeohashFirstDeg, b.GeohashSecondDeg, b.GeohashThirdDeg,
     b.ShortName, b.Color]
  }

  /** Records that list their attributes alike are the same record. */
  lemma FieldsInjective(a: BusData, b: BusData)
    requires Fields(a) == Fields(b)
    ensures a == b
  {
    assert forall i :: 0 <= i < 19 ==> Fields(a)[i] == Fields(b)[i];
  }

  /** ClientCoords: the coordinates a live client sends once at connection time.
      Go's float64 is modelled as a real. */
  datatype ClientCoords = ClientCoords(Latitude: real, Longitude: real)

  /** The `chan models.BusData` created once in main and shared by the MQTT handler (the
      producer), the persistence loop and every live subscriber. The loop and the subscribers
      compete for its records: each record is received by exactly one of them, so a record a
      subscriber takes is not persisted. Its buffer is the sequence of records sent and not
      yet received. */
  class DataChannel {
    var queue: seq<BusData>

    constructor ()
      ensures queue == []
    {
      queue := [];
    }

    /** `ch <- d` */
    method Send(d: BusData)
      modifies this
      ensures queue == old(queue) + [d]
    {
      queue := queue + [d];
    }

    /** `d := <-ch` on a channel that holds a record (an empty channel blocks). */
    method Receive() returns (d: BusData)
      requires queue != []
      modifies this
      ensures d == old(queue)[0] && queue == old(queue)[1..]
      ensures old(queue) == [d] + queue
    {
      d := queue[0];
      queue := queue[1..];
    }
  }
}
