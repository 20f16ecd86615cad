/** internal/database/influxdb/influxdb.go: how a record becomes a store point (tags and
    fields), and how query results become records. The store is an oracle: a query, reduced
    to its one equality predicate, yields either an error or a stream of rows that may end
    in an error; a write of the n-th point either succeeds or fails. */
module InfluxDB {
  import opened Models

  /** The measurement every point is written to and every query filters on. */
  const Measurement: string := "busTelemetry"

  /** The equality predicate of a query over the last hour of busTelemetry points. */
  datatype Filter = NextStopIs(stop: string) | GeoHashHeadIs(head: string)

  /** One row of a query result: its measurement and its columns. */
  datatype Row = Row(measurement: string, values: map<string, string>)

  /** What a query gives: an error from Query, or the rows result.Next() yields and then
      what result.Err() reports. */
  datatype QueryResult = QueryFailed(err: Error) | Stream(rows: seq<Row>, streamErr: Option<Error>)

  type Store = Filter -> QueryResult

  /** influxdb2.NewPoint without its timestamp. */
  datatype Point = Point(measurement: string, tags: map<string, string>, fields: map<string, string>)

  const TagKeys: set<string> := {"vehicle_id", "mode", "route_id", "trip_id", "trip_headsign",
    "next_stop", "geoHash_head", "geoHash_first", "geoHash_second", "geoHash_third"}

  const FieldKeys: set<string> := {"feed_format", "type", "feed_id", "agency_id", "agency_name",
    "direction_id", "start_time", "short_name", "color"}

  /** The tag map of WriteToInfluxDB: the identifying and geographic attributes. */
  function Tags(d: BusData): (t: map<string, string>)
    ensures t.Keys == TagKeys
  {
    map[
      "vehicle_id" := d.VehicleID,
      "mode" := d.Mode,
      "route_id" := d.RouteID,
      "trip_id" := d.TripID,
      "trip_headsign" := d.TripHeadsign,
      "next_stop" := d.NextStop,
      "geoHash_head" := d.GeohashHead,
      "geoHash_first" := d.GeohashFirstDeg,
      "geoHash_second" := d.GeohashSecondDeg,
      "geoHash_third" := d.GeohashThirdDeg]
  }

  /** The field map of WriteToInfluxDB: the remaining attributes. */
  function FieldMap(d: BusData): (f: map<string, string>)
    ensures f.Keys == FieldKeys
  {
    map[
      "feed_format" := d.FeedFormat,
      "type" := d.Type,
      "feed_id" := d.FeedID,
      "agency_id" := d.AgencyID,
      "agency_name" := d.AgencyName,
      "direction_id" := d.DirectionID,
      "start_time" := d.StartTime,
      "short_name" := d.ShortName,
      "color" := d.Color]
  }

  /** The point WriteToInfluxDB builds for a record. */
  function NewPoint(d: BusData): Point
  {
    Point(Measurement, Tags(d), FieldMap(d))
  }

  /** Reading a record back from a point's tags and fields. */
  function FromPoint(p: Point): BusData
    requires TagKeys <= p.tags.Keys && FieldKeys <= p.fields.Keys
  {
    BusData(
      FeedFormat := p.fields["feed_format"],
      Type := p.fields["type"],
      FeedID := p.fields["feed_id"],
      AgencyID := p.fields["agency_id"],
      AgencyName := p.fields["agency_name"],
      Mode := p.tags["mode"],
      RouteID := p.tags["route_id"],
      DirectionID := p.fields["direction_id"],
      TripHeadsign := p.tags["trip_headsign"],
      TripID := p.tags["trip_id"],
      NextStop := p.tags["next_stop"],
      StartTime := p.fields["start_time"],
      VehicleID := p.tags["vehicle_id"],
      GeohashHead := p.tags["geoHash_head"],
      GeohashFirstDeg := p.tags["geoHash_first"],
      GeohashSecondDeg := p.tags["geoHash_second"],
      GeohashThirdDeg := p.tags["geoHash_third"],
      ShortName := p.fields["short_name"],
      Color := p.fields["color"])
  }

  // Looking up each tag and each field of a record's maps.
  lemma TagsLookup(d: BusData)
    ensures var t := Tags(d);
      && t["vehicle_id"] == d.VehicleID && t["mode"] == d.Mode && t["route_id"] == d.RouteID
      && t["trip_id"] == d.TripID && t["trip_headsign"] == d.TripHeadsign
      && t["next_stop"] == d.NextStop && t["geoHash_head"] == d.GeohashHead
      && t["geoHash_first"] == d.GeohashFirstDeg && t["geoHash_second"] == d.GeohashSecondDeg
      && t["geoHash_third"] == d.GeohashThirdDeg
  {
  }

  lemma FieldMapLookup(d: BusData)
    ensures var f := FieldMap(d);
      && f["feed_format"] == d.FeedFormat && f["type"] == d.Type && f["feed_id"] == d.FeedID
      && f["agency_id"] == d.AgencyID && f["agency_name"] == d.AgencyName
      && f["direction_id"] == d.DirectionID && f["start_time"] == d.StartTime
      && f["short_name"] == d.ShortName && f["color"] == d.Color
  {
  }

  /** Every attribute of a record can be read back from its point. */
  lemma PointRoundTrip(d: BusData)
    ensures NewPoint(d).measurement == Measurement
    ensures FromPoint(NewPoint(d)) == d
  {
    TagsLookup(d);
    FieldMapLookup(d);
  }

  lemma TagKeysCount()
    ensures |TagKeys| == 10
  {
    var t1 := {"vehicle_id", "mode", "route_id", "trip_id", "trip_headsign"};
    var t2 := {"next_stop", "geoHash_head", "geoHash_first", "geoHash_second", "geoHash_third"};
    assert |t1| == 5 by {
      assert |{"vehicle_id", "mode"}| == 2;
      assert |{"vehicle_id", "mode", "route_id"}| == 3;
      assert |{"vehicle_id", "mode", "route_id", "trip_id"}| == 4;
    }
    assert |t2| == 5 by {
      assert |{"next_stop", "geoHash_head"}| == 2;
      assert |{"next_stop", "geoHash_head", "geoHash_first"}| == 3;
      assert |{"next_stop", "geoHash_head", "geoHash_first", "geoHash_second"}| == 4;
    }
    assert t1 !! t2;
    assert TagKeys == t1 + t2;
  }

  lemma FieldKeysCount()
    ensures |FieldKeys| == 9
  {
    var f1 := {"feed_format", "type", "feed_id", "agency_id"};
    var f2 := {"agency_name", "direction_id", "start_time", "short_name", "color"};
    assert |f1| == 4 by {
      assert |{"feed_format", "type"}| == 2;
      assert |{"feed_format", "type", "feed_id"}| == 3;
    }
    assert |f2| == 5 by {
      assert |{"agency_name", "direction_id"}| == 2;
      assert |{"agency_name", "direction_id", "start_time"}| == 3;
      assert |{"agency_name", "direction_id", "start_time", "short_name"}| == 4;
    }
    assert f1 !! f2;
    assert FieldKeys == f1 + f2;
  }

  // The identifying and the geographic tag keys, against the two halves of the field keys.
  lemma IdentifyingTagsNotFields()
    ensures {"vehicle_id", "mode", "route_id", "trip_id", "trip_headsign"}
         !! {"feed_format", "type", "feed_id", "agency_id"}
    ensures {"vehicle_id", "mode", "route_id", "trip_id", "trip_headsign"}
         !! {"agency_name", "direction_id", "start_time", "short_name", "color"}
  {
  }

  lemma GeographicTagsNotFields()
    ensures {"next_stop", "geoHash_head", "geoHash_first", "geoHash_second", "geoHash_third"}
         !! {"feed_format", "type", "feed_id", "agency_id"}
    ensures {"next_stop", "geoHash_head", "geoHash_first", "geoHash_second", "geoHash_third"}
         !! {"agency_name", "direction_id", "start_time", "short_name", "color"}
  {
  }

  /** Tags and fields split the 19 attributes: 10 tag keys, 9 field keys, none in both. */
  lemma TagsAndFieldsPartition()
    ensures TagKeys !! FieldKeys
    ensures |TagKeys| == 10 && |FieldKeys| == 9 && |TagKeys + FieldKeys| == 19
  {
    TagKeysCount();
    FieldKeysCount();
    var t1 := {"vehicle_id", "mode", "route_id", "trip_id", "trip_headsign"};
    var t2 := {"next_stop", "geoHash_head", "geoHash_first", "geoHash_second", "geoHash_third"};
    var f1 := {"feed_format", "type", "feed_id", "agency_id"};
    var f2 := {"agency_name", "direction_id", "start_time", "short_name", "color"};
    IdentifyingTagsNotFields();
    GeographicTagsNotFields();
    assert TagKeys == t1 + t2;
    assert FieldKeys == f1 + f2;
  }

  // ---- Reading query rows ----

  predicate IsTelemetry(row: Row)
  {
    row.measurement == Measurement
  }

  /** The rows a record is built from carry the columns the code reads; a missing column
      makes the type assertion `.(string)` panic. */
  predicate RowsCarry(rows: seq<Row>, keys: set<string>, telemetryOnly: bool)
  {
    forall j :: 0 <= j < |rows| && (IsTelemetry(rows[j]) || !telemetryOnly) ==> keys <= rows[j].values.Keys
  }

  /** A column of a row as the specification reads it; the methods require the columns they
      read, so the empty default never reaches a method's result. */
  function Column(row: Row, key: string): string
  {
    if key in row.values then row.values[key] else ""
  }

  /** The rows a query returned, none for a failed query. */
  function RowsOf(r: QueryResult): seq<Row>
  {
    match r
    case QueryFailed(_) => []
    case Stream(rows, _) => rows
  }

  /** The record FindBusesFromStops makes of a row: only VehicleID is set. */
  function VehicleRecord(vehicleID: string): BusData
  {
    Zero().(VehicleID := vehicleID)
  }

  /** The record QueryData makes of a row. */
  function RouteRecord(row: Row): BusData
  {
    Zero().(VehicleID := Column(row, "vehicle_id"), RouteID := Column(row, "route_id"))
  }

  const NearKeys: set<string> := {"vehicle_id", "route_id", "geoHash_first", "geoHash_second", "geoHash_third"}

  /** The record FindBusesNear makes of a row. */
  function NearRecord(row: Row): BusData
  {
    Zero().(VehicleID := Column(row, "vehicle_id"), RouteID := Column(row, "route_id"),
            GeohashFirstDeg := Column(row, "geoHash_first"),
            GeohashSecondDeg := Column(row, "geoHash_second"),
            GeohashThirdDeg := Column(row, "geoHash_third"))
  }

  // ---- FindBusesFromStops: specification ----

  /** The inner row loop of FindBusesFromStops from row j on: each busTelemetry row
      overwrites the record. */
  function ScanRows(rows: seq<Row>, j: nat, acc: BusData): BusData
    decreases |rows| - j
  {
    if j >= |rows| then acc
    else ScanRows(rows, j + 1, if IsTelemetry(rows[j]) then VehicleRecord(Column(rows[j], "vehicle_id")) else acc)
  }

  /** The rows of the query for a stop. */
  function StopRows(store: Store, stop: BusData): seq<Row>
  {
    RowsOf(store(NextStopIs(stop.NextStop)))
  }

  /** Stores whose answers carry vehicle_id on every busTelemetry row of the stops the loop
      reads: stop i is read only when the queries and streams of the stops before it succeeded. */
  predicate StopRowsCarryVehicle(store: Store, stops: seq<BusData>)
  {
    forall i :: 0 <= i < |stops| && (forall j :: 0 <= j < i ==> QueryOk(store, stops[j])) ==>
      RowsCarry(StopRows(store, stops[i]), {"vehicle_id"}, true)
  }

  /** What the stop loop ends with: the record, the error, and how many stops it queried. */
  datatype StopsOutcome = StopsOutcome(busData: BusData, err: Option<Error>, queried: nat)

  /** The outer loop of FindBusesFromStops from stop i on, with the record acc. */
  function StopsFrom(store: Store, stops: seq<BusData>, i: nat, acc: BusData): (o: StopsOutcome)
    ensures o.queried <= |stops|
    decreases |stops| - i
  {
    if i >= |stops| then StopsOutcome(acc, None, |stops|)
    else
      match store(NextStopIs(stops[i].NextStop))
      case QueryFailed(e) => StopsOutcome(acc, Some(e), i + 1)
      case Stream(rows, streamErr) =>
        var b := ScanRows(rows, 0, acc);
        if streamErr.Some? then StopsOutcome(b, streamErr, i + 1)
        else StopsFrom(store, stops, i + 1, b)
  }

  /** FindBusesFromStops, starting from the zero record. */
  function BusesFromStops(store: Store, stops: seq<BusData>): StopsOutcome
  {
    StopsFrom(store, stops, 0, Zero())
  }

  /** The queries made for the first n stops. */
  function StopQueries(stops: seq<BusData>, n: nat): (qs: seq<Filter>)
    requires n <= |stops|
    ensures |qs| == n
  {
    seq(n, j requires 0 <= j < n => NextStopIs(stops[j].NextStop))
  }

  // ---- FindBusesFromStops: reference by searching from the end ----

  /** The last Some in xs. */
  function LastSome<T>(xs: seq<Option<T>>): Option<T>
  {
    if xs == [] then None
    else if xs[|xs| - 1].Some? then xs[|xs| - 1]
    else LastSome(xs[..|xs| - 1])
  }

  lemma {:induction false} LastSomeCons<T>(xs: seq<Option<T>>)
    requires xs != []
    ensures LastSome(xs) == if LastSome(xs[1..]).Some? then LastSome(xs[1..]) else xs[0]
    decreases |xs|
  {
    if |xs| > 1 {
      var init := xs[..|xs| - 1];
      assert init[1..] == xs[1..][..|xs[1..]| - 1];
      assert xs[1..][|xs[1..]| - 1] == xs[|xs| - 1];
      LastSomeCons(init);
    } else {
      assert xs[..0] == [] && xs[1..] == [];
    }
  }

  /** The vehicle a row contributes, if it is a busTelemetry row. */
  function RowVehicle(row: Row): Option<string>
  {
    if IsTelemetry(row) then Some(Column(row, "vehicle_id")) else None
  }

  function RowVehicles(rows: seq<Row>): (vs: seq<Option<string>>)
    ensures |vs| == |rows|
  {
    seq(|rows|, k requires 0 <= k < |rows| => RowVehicle(rows[k]))
  }

  /** The record after a row scan: the last vehicle seen, or the record from before. */
  function WithVehicle(v: Option<string>, acc: BusData): BusData
  {
    match v
    case Some(id) => VehicleRecord(id)
    case None => acc
  }

  /** The row loop leaves the vehicle of the last busTelemetry row, or the record it started
      with when no row from j on is a busTelemetry row. */
  lemma {:induction false} ScanRowsIsLastVehicle(rows: seq<Row>, j: nat, acc: BusData)
    requires j <= |rows|
    ensures ScanRows(rows, j, acc) == WithVehicle(LastSome(RowVehicles(rows)[j..]), acc)
    decreases |rows| - j
  {
    var vs := RowVehicles(rows);
    if j == |rows| {
      assert vs[j..] == [];
    } else {
      var next := if IsTelemetry(rows[j]) then VehicleRecord(Column(rows[j], "vehicle_id")) else acc;
      ScanRowsIsLastVehicle(rows, j + 1, next);
      LastSomeCons(vs[j..]);
      assert vs[j..][1..] == vs[j + 1..];
    }
  }

  /** For each stop, the vehicle of its last busTelemetry row, if any. */
  function StopVehicles(store: Store, stops: seq<BusData>): (vs: seq<Option<string>>)
    ensures |vs| == |stops|
  {
    seq(|stops|, k requires 0 <= k < |stops| => LastSome(RowVehicles(StopRows(store, stops[k]))))
  }

  /** The stop's query succeeds and its result stream ends without error. */
  predicate QueryOk(store: Store, stop: BusData)
  {
    store(NextStopIs(stop.NextStop)).Stream? && store(NextStopIs(stop.NextStop)).streamErr.None?
  }

  lemma {:induction false} StopsFromLastMatch(store: Store, stops: seq<BusData>, i: nat, acc: BusData)
    requires i <= |stops|
    requires forall j :: i <= j < |stops| ==> QueryOk(store, stops[j])
    ensures StopsFrom(store, stops, i, acc)
         == StopsOutcome(WithVehicle(LastSome(StopVehicles(store, stops)[i..]), acc), None, |stops|)
    decreases |stops| - i
  {
    var vs := StopVehicles(store, stops);
    if i == |stops| {
      assert vs[i..] == [];
    } else {
      var rows := StopRows(store, stops[i]);
      ScanRowsIsLastVehicle(rows, 0, acc);
      assert RowVehicles(rows)[0..] == RowVehicles(rows);
      StopsFromLastMatch(store, stops, i + 1, ScanRows(rows, 0, acc));
      LastSomeCons(vs[i..]);
      assert vs[i..][1..] == vs[i + 1..];
    }
  }

  /** Last match wins: with no errors, FindBusesFromStops queries every stop and returns,
      with a nil error, the record holding only the vehicle of the last busTelemetry row of
      the last stop (in input order) whose query returned one; the zero record when there is
      none, as for no stops. */
  lemma FromStopsLastMatchWins(store: Store, stops: seq<BusData>)
    requires forall j :: 0 <= j < |stops| ==> QueryOk(store, stops[j])
    ensures var o := BusesFromStops(store, stops);
      && o.err == None
      && o.queried == |stops|
      && o.busData == WithVehicle(LastSome(StopVehicles(store, stops)), Zero())
      && o.busData == Zero().(VehicleID := o.busData.VehicleID)
  {
    StopsFromLastMatch(store, stops, 0, Zero());
    assert StopVehicles(store, stops)[0..] == StopVehicles(store, stops);
  }

  lemma {:induction false} StopsFromFirstError(store: Store, stops: seq<BusData>, i: nat, acc: BusData, k: nat)
    requires i <= k < |stops|
    requires forall j :: i <= j < k ==> QueryOk(store, stops[j])
    requires !QueryOk(store, stops[k])
    ensures var q := store(NextStopIs(stops[k].NextStop));
      var before := WithVehicle(LastSome(StopVehicles(store, stops)[i..k]), acc);
      StopsFrom(store, stops, i, acc) == if q.QueryFailed?
        then StopsOutcome(before, Some(q.err), k + 1)
        else StopsOutcome(ScanRows(q.rows, 0, before), q.streamErr, k + 1)
    decreases k - i
  {
    var vs := StopVehicles(store, stops);
    if i == k {
      assert vs[i..k] == [];
    } else {
      var rows := StopRows(store, stops[i]);
      ScanRowsIsLastVehicle(rows, 0, acc);
      assert RowVehicles(rows)[0..] == RowVehicles(rows);
      StopsFromFirstError(store, stops, i + 1, ScanRows(rows, 0, acc), k);
      LastSomeCons(vs[i..k]);
      assert vs[i..k][1..] == vs[i + 1..k];
    }
  }

  /** The first failing query or broken result stream ends FindBusesFromStops: no later stop
      is queried, and the record built so far is returned with that error. */
  lemma FromStopsFirstErrorStops(store: Store, stops: seq<BusData>, k: nat)
    requires k < |stops|
    requires forall j :: 0 <= j < k ==> QueryOk(store, stops[j])
    requires !QueryOk(store, stops[k])
    ensures var o := BusesFromStops(store, stops);
      var q := store(NextStopIs(stops[k].NextStop));
      && o.queried == k + 1
      && o.err == (if q.QueryFailed? then Some(q.err) else q.streamErr)
      && o.err.Some?
  {
    StopsFromFirstError(store, stops, 0, Zero(), k);
  }

  /** The scenario of the repository's integration test: stop1 has one busTelemetry row for
      Bus123, stop2 has none; the merged record holds Bus123 and no error. */
  lemma FromStopsTestScenario(store: Store, stops: seq<BusData>)
    requires store(NextStopIs("stop1")) == Stream([Row(Measurement, map["vehicle_id" := "Bus123", "next_stop" := "stop1"])], None)
    requires store(NextStopIs("stop2")) == Stream([], None)
    requires stops == [Zero().(NextStop := "stop1"), Zero().(NextStop := "stop2")]
    ensures StopRowsCarryVehicle(store, stops)
    ensures BusesFromStops(store, stops) == StopsOutcome(VehicleRecord("Bus123"), None, 2)
  {
    var rows := store(NextStopIs("stop1")).rows;
    assert StopRowsCarryVehicle(store, stops) by {
      assert RowsCarry(rows, {"vehicle_id"}, true);
    }
    assert ScanRows(rows, 1, VehicleRecord("Bus123")) == VehicleRecord("Bus123");
    assert ScanRows(rows, 0, Zero()) == VehicleRecord("Bus123");
    assert ScanRows([], 0, VehicleRecord("Bus123")) == VehicleRecord("Bus123");
    assert StopsFrom(store, stops, 2, VehicleRecord("Bus123")) == StopsOutcome(VehicleRecord("Bus123"), None, 2);
    assert StopsFrom(store, stops, 1, VehicleRecord("Bus123")) == StopsOutcome(VehicleRecord("Bus123"), None, 2);
  }

  // ---- QueryData and FindBusesNear: specification ----

  /** The records QueryData keeps: one per busTelemetry row, in row order. */
  function RouteRecords(rows: seq<Row>): (r: seq<BusData>)
    ensures |r| <= |rows|
    ensures forall x :: x in r ==> exists j :: 0 <= j < |rows| && IsTelemetry(rows[j]) && x == RouteRecord(rows[j])
    ensures forall j :: 0 <= j < |rows| && IsTelemetry(rows[j]) ==> RouteRecord(rows[j]) in r
  {
    if rows == [] then []
    else
      var rest := rows[1..];
      assert forall j :: 0 <= j < |rest| ==> rest[j] == rows[j + 1];
      var tail := RouteRecords(rest);
      (if IsTelemetry(rows[0]) then [RouteRecord(rows[0])] else []) + tail
  }

  /** Order: a row read after the others adds its record after theirs. */
  lemma {:induction false} RouteRecordsSnoc(rows: seq<Row>, row: Row)
    ensures RouteRecords(rows + [row])
         == RouteRecords(rows) + (if IsTelemetry(row) then [RouteRecord(row)] else [])
    decreases |rows|
  {
    if rows == [] {
      assert [] + [row] == [row];
    } else {
      assert (rows + [row])[0] == rows[0];
      assert (rows + [row])[1..] == rows[1..] + [row];
      RouteRecordsSnoc(rows[1..], row);
    }
  }

  /** QueryData's answer: the busTelemetry rows whose next_stop equals the argument (the
      argument is called vehicleID but is compared with next_stop), or the store's error. */
  function StopRecordsResult(store: Store, vehicleID: string): Result<seq<BusData>>
  {
    match store(NextStopIs(vehicleID))
    case QueryFailed(e) => Err(e)
    case Stream(rows, streamErr) =>
      if streamErr.Some? then Err(streamErr.value) else Ok(RouteRecords(rows))
  }

  /** The records FindBusesNear makes: one per row, whatever its measurement. */
  function NearRecords(rows: seq<Row>): (r: seq<BusData>)
    ensures |r| == |rows|
  {
    seq(|rows|, k requires 0 <= k < |rows| => NearRecord(rows[k]))
  }

  /** FindBusesNear's answer: the rows whose geoHash_head tag equals the argument, or the
      store's error. */
  function BusesNearResult(store: Store, geohash: string): Result<seq<BusData>>
  {
    match store(GeoHashHeadIs(geohash))
    case QueryFailed(e) => Err(e)
    case Stream(rows, streamErr) =>
      if streamErr.Some? then Err(streamErr.value) else Ok(NearRecords(rows))
  }

  /** The points written for a run of records, one per record, in order. */
  function Points(ds: seq<BusData>): (ps: seq<Point>)
    ensures |ps| == |ds|
    ensures forall k :: 0 <= k < |ds| ==> ps[k] == NewPoint(ds[k])
  {
    if ds == [] then []
    else
      var init := ds[..|ds| - 1];
      assert forall k :: 0 <= k < |init| ==> init[k] == ds[k];
      Points(init) + [NewPoint(ds[|ds| - 1])]
  }

  /** One more record adds its point at the end. */
  lemma PointsSnoc(ds: seq<BusData>, d: BusData)
    ensures Points(ds + [d]) == Points(ds) + [NewPoint(d)]
  {
    assert (ds + [d])[..|ds|] == ds;
  }

  /** Every point read back gives its record: the points of a run are the run. */
  lemma {:induction false} PointsRoundTrip(ds: seq<BusData>)
    ensures forall k :: 0 <= k < |ds| ==> FromPoint(Points(ds)[k]) == ds[k]
  {
    forall k | 0 <= k < |ds| ensures FromPoint(Points(ds)[k]) == ds[k] {
      PointRoundTrip(ds[k]);
    }
  }

  /** busDataManager: the client's two sides. `store` answers queries; `writeResult(n)` is
      the error the blocking write API returns for the n-th point written (from 0), if any. */
  class BusDataManager {
    const store: Store
    const writeResult: nat -> Option<Error>
    /** Every record WriteToInfluxDB was given, in order; the n-th went to the write API as
        the point NewPoint(attempts[n]). */
    var attempts: seq<BusData>
    /** The points the store accepted, in order. */
    var written: seq<Point>

    constructor (store: Store, writeResult: nat -> Option<Error>)
      ensures this.store == store && this.writeResult == writeResult
      ensures attempts == [] && written == []
      ensures Valid()
    {
      this.store := store;
      this.writeResult := writeResult;
      attempts := [];
      written := [];
    }

    /** The points the store holds are those of the attempted writes it accepted. */
    ghost predicate Valid()
      reads this
    {
      written == Accepted(attempts)
    }

    /** The points the store keeps when the records ds are written in order, the n-th write
        succeeding when writeResult(n) is None: every kept point is the point of an attempted
        record, and all of them are kept when no write fails. */
    function Accepted(ds: seq<BusData>): (r: seq<Point>)
      ensures |r| <= |ds|
      ensures forall x :: x in r ==> x in Points(ds)
      ensures (forall n :: 0 <= n < |ds| ==> writeResult(n).None?) ==> r == Points(ds)
      decreases |ds|
    {
      if ds == [] then []
      else
        var init := ds[..|ds| - 1];
        assert Points(ds) == Points(init) + [NewPoint(ds[|ds| - 1])];
        Accepted(init) + (if writeResult(|ds| - 1).None? then [NewPoint(ds[|ds| - 1])] else [])
    }

    /** One more write adds its point at the end exactly when the store accepts it. */
    lemma AcceptedSnoc(ds: seq<BusData>, d: BusData)
      ensures Accepted(ds + [d]) == Accepted(ds) + (if writeResult(|ds|).None? then [NewPoint(d)] else [])
    {
      assert (ds + [d])[..|ds|] == ds;
    }

    /** WriteToInfluxDB: one point per record; the point is kept when the store accepts it
        and a failed write is only logged, so the error returned is nil on every path. */
    method WriteToInfluxDB(data: BusData) returns (err: Option<Error>)
      requires Valid()
      modifies this
      ensures Valid()
      ensures attempts == old(attempts) + [data]
      ensures written == old(written) + if writeResult(|old(attempts)|).None? then [NewPoint(data)] else []
      ensures err == None
    {
      var point := NewPoint(data);
      var writeErr := writeResult(|attempts|);
      AcceptedSnoc(attempts, data);
      attempts := attempts + [data];
      if writeErr.None? {
        written := written + [point];
      } else {
        assert written + [] == written;
      }
      err := None;
    }

    /** FindBusesFromStops: one query per stop, in order; every busTelemetry row overwrites
        the record with one holding only its vehicle_id; the first error returns at once. */
    method FindBusesFromStops(stops: seq<BusData>) returns (busData: BusData, err: Option<Error>, ghost issued: seq<Filter>)
      requires StopRowsCarryVehicle(store, stops)
      ensures busData == BusesFromStops(store, stops).busData
      ensures err == BusesFromStops(store, stops).err
      ensures issued == StopQueries(stops, BusesFromStops(store, stops).queried)
    {
      busData := Zero();
      issued := [];
      var i := 0;
      while i < |stops|
        invariant 0 <= i <= |stops|
        invariant issued == StopQueries(stops, i)
        invariant BusesFromStops(store, stops) == StopsFrom(store, stops, i, busData)
        invariant forall j :: 0 <= j < i ==> QueryOk(store, stops[j])
      {
        var stop := stops[i];
        issued := issued + [NextStopIs(stop.NextStop)];
        var result := store(NextStopIs(stop.NextStop));
        if result.QueryFailed? {
          err := Some(result.err);
          return;
        }
        var rows := result.rows;
        assert RowsCarry(rows, {"vehicle_id"}, true);
        ghost var start := busData;
        var j := 0;
        while j < |rows|
          invariant 0 <= j <= |rows|
          invariant ScanRows(rows, 0, start) == ScanRows(rows, j, busData)
        {
          if rows[j].measurement == Measurement {
            busData := VehicleRecord(rows[j].values["vehicle_id"]);
          }
          j := j + 1;
        }
        if result.streamErr.Some? {
          err := result.streamErr;
          return;
        }
        i := i + 1;
      }
      err := None;
    }

    /** QueryData: the busTelemetry rows for the stop, as records holding VehicleID and
        RouteID, in row order; nothing but the error when the query or its stream fails. */
    method QueryData(vehicleID: string) returns (r: Result<seq<BusData>>, ghost issued: seq<Filter>)
      requires RowsCarry(RowsOf(store(NextStopIs(vehicleID))), {"vehicle_id", "route_id"}, true)
      ensures r == StopRecordsResult(store, vehicleID)
      ensures issued == [NextStopIs(vehicleID)]
    {
      issued := [NextStopIs(vehicleID)];
      var result := store(NextStopIs(vehicleID));
      if result.QueryFailed? {
        return Err(result.err), issued;
      }
      var rows := result.rows;
      var busDataList: seq<BusData> := [];
      var j := 0;
      while j < |rows|
        invariant 0 <= j <= |rows|
        invariant busDataList == RouteRecords(rows[..j])
      {
        if rows[j].measurement == Measurement {
          var busData := Zero().(VehicleID := rows[j].values["vehicle_id"], RouteID := rows[j].values["route_id"]);
          busDataList := busDataList + [busData];
        }
        assert rows[..j + 1] == rows[..j] + [rows[j]];
        RouteRecordsSnoc(rows[..j], rows[j]);
        j := j + 1;
      }
      assert rows[..j] == rows;
      if result.streamErr.Some? {
        return Err(result.streamErr.value), issued;
      }
      r := Ok(busDataList);
    }

    /** FindBusesNear: every row for the geohash cell, as a record of its vehicle, route and
        three geohash digit groups, in row order; nothing but the error on failure. */
    method FindBusesNear(geohash: string) returns (r: Result<seq<BusData>>, ghost issued: seq<Filter>)
      requires RowsCarry(RowsOf(store(GeoHashHeadIs(geohash))), NearKeys, false)
      ensures r == BusesNearResult(store, geohash)
      ensures issued == [GeoHashHeadIs(geohash)]
    {
      issued := [GeoHashHeadIs(geohash)];
      var result := store(GeoHashHeadIs(geohash));
      if result.QueryFailed? {
        return Err(result.err), issued;
      }
      var rows := result.rows;
      var buses: seq<BusData> := [];
      var j := 0;
      while j < |rows|
        invariant 0 <= j <= |rows|
        invariant buses == NearRecords(rows[..j])
      {
        var row := rows[j];
        var bus := Zero().(VehicleID := row.values["vehicle_id"], RouteID := row.values["route_id"],
                           GeohashFirstDeg := row.values["geoHash_first"],
                           GeohashSecondDeg := row.values["geoHash_second"],
                           GeohashThirdDeg := row.values["geoHash_third"]);
        buses := buses + [bus];
        j := j + 1;
      }
      assert rows[..j] == rows;
      if result.streamErr.Some? {
        return Err(result.streamErr.value), issued;
      }
      r := Ok(buses);
    }
  }
}
