# finbus ingestion pipeline, modelled in Dafny

finbus receives live vehicle positions from an MQTT broker and stores them in InfluxDB. A
client asks for buses near a position or subscribes to live updates. The core modelled here
covers:

- **Topic decoding** (`internal/transport/mqtt/mqtt.go`). A topic such as
  `/gtfsrt/vp/fi/HSL/HSL/bus/1001/0/Center/T1/StopA/08:00:00/Bus42/60;24/1/2/3/1/red` is split
  on `/`, and parts 1 to 19 become the 19 attributes of a `BusData` record. The message
  handler pushes that record onto the data channel shared by the whole process.
- **The custom geohash** (`internal/config/tools.go`). It is the text
  `<latInt>;<lonInt>/<d>/<d>/...`, whose tail alternates the six decimals of the latitude and
  the longitude. The same file holds the environment lookup with a fallback.
- **The store manager** (`internal/database/influxdb/influxdb.go`). A record becomes a point
  with 10 tag keys and 9 field keys. Three queries turn result rows back into records:
  by stop (last match wins), by next stop (vehicle and route), and by geohash cell.
- **The service** (`internal/services/bus_data_service.go`). The persistence loop writes the
  records it receives from the data channel to the store, one write per record, in order.
  It is not the channel's only reader: every live subscriber ranges over the same channel,
  and a record a subscriber receives is never persisted. The query and subscription entry
  points delegate to the manager and the subscriber.

Modules and files:

| module | file | models |
|---|---|---|
| `Strings` | strings.dfy | Go's `strings.Split` / `strings.Join` with a one-character separator |
| `Strconv` | strconv.dfy | `strconv.Atoi` on integer text (clamped to int64 on overflow), and `%d` |
| `Models` | models.dfy | `BusData`, `ClientCoords`, the errors, the shared channel (class `DataChannel`) |
| `Mqtt` | mqtt.dfy | `parseTopic`, the subscriber (class `BusDataSubscriber`) |
| `Config` | config.dfy | `GetEnv`, `splitFloat`, `interleaveAndFormat`, `ConvertToCustomGeohash` |
| `InfluxDB` | influxdb.dfy | points, query results, the manager (class `BusDataManager`) |
| `Services` | services.dfy | the service (class `BusDataService`) |

Foreign code becomes a parameter or a constant of the object that uses it:

- **The InfluxDB store** is the manager's `store: Filter -> QueryResult`.
  - A query is reduced to its one equality predicate: `next_stop == s` or `geoHash_head == g`.
  - It yields either the error of `Query`, or the rows `result.Next()` produces followed by
    what `result.Err()` reports.
  - Whether the n-th write (counting from 0) fails is the manager's
    `writeResult: nat -> Option<Error>`.
  - The manager records every record it was asked to write in `attempts` and the points the
    store accepted in `written`. Its invariant `Valid()` says `written` holds exactly the
    points of the accepted attempts, in order.
- **The MQTT broker** is the subscriber's `brokerReply: string -> Option<string>`: the error
  text of a refused subscription, or `None` when it is accepted. The subscriber records every
  subscription request in `requests`.
- **`strconv.ParseFloat` followed by `fmt.Sprintf("%.6f", …)`** is a parameter
  `formatFloat: string -> Option<string>`. For each input text it gives nothing (parsing
  failed) or the `%.6f` text.
- **`config.GetGeohash`** is not part of this model. The operations that call it take it as a
  parameter `getGeohash: (real, real) -> Result<string>`.
- **The query methods' ghost output `issued`** lists the queries made. It is how the model
  says that no query is made on an error path.

Behaviour of the code that a reader might expect to be otherwise, and that the model follows:

- **Topics with other than 20 parts.** A vehicle-position topic has 20 `/`-separated parts,
  but the code does not check the count, so nothing is rejected:
  - fewer than 20 parts index past the end of the slice and panic, so `Mqtt.ParseTopic`
    requires `Decodable` (at least 20 parts);
  - parts from index 20 on are ignored (`Mqtt.ParseTopicIgnoresTrailing`).
- **Negative coordinates.** The geohash head is meant to carry the signed integer parts of
  the coordinates. The code's `splitFloat` drops the sign of any coordinate between -1 and 0:
  `%.6f` gives `-0.xxxxxx`, and `Atoi("-0")` is `0` (`Config.SplitFloatNegativeZero`).
- **Live subscriptions.** There is no channel per client and no unsubscribe. The code returns
  the single channel shared by the whole process, which the persistence loop also reads, and
  never unsubscribes (`Services.BusDataService.SubscribeToBusUpdates`).
- **`QueryData`'s argument.** It is named `vehicleID` but is compared with the `next_stop`
  tag (`InfluxDB.StopRecordsResult`).

## Model

| member | source | states |
|---|---|---|
| Models.Fields | internal/models/BusData.go:3-23 | the 19 attributes in declaration order, exactly 19 of them |
| Models.FieldsInjective | internal/models/BusData.go:3-23 | two records with the same attribute list are the same record |
| Models.DataChannel.Send | internal/transport/mqtt/mqtt.go:45 | a send appends exactly the record to the channel's buffer |
| Models.DataChannel.Receive | internal/services/bus_data_service.go:37 | a receive takes the oldest buffered record and removes exactly it (FIFO order) |
| Strings.Split | internal/transport/mqtt/mqtt.go:50 | `strings.Split` gives at least one piece and no piece contains the separator |
| Strings.JoinSplit | internal/transport/mqtt/mqtt.go:50 | joining the pieces of a split gives back the original text |
| Strings.SplitJoin | internal/config/tools.go:60 | splitting a join of separator-free pieces gives back the pieces |
| Strings.JoinSingles | internal/config/tools.go:60 | a join of one-character pieces has length 2n-1, with the characters at even positions and the separator at odd ones |
| Strconv.FormatInt | internal/config/tools.go:35 | `%d` text is integer text with no '+' whose value is the integer |
| Strconv.AtoiFormatInt | internal/config/tools.go:45 | `Atoi` reads back every int64 that `%d` printed |
| Strconv.FormatIntInjective | internal/config/tools.go:35 | distinct integers print to distinct `%d` texts |
| Strconv.FormatIntChars | internal/config/tools.go:35 | `%d` text holds only digits and possibly a leading '-', so it never contains ';' or '/' |
| Mqtt.ParseTopic | internal/transport/mqtt/mqtt.go:49-72 | decoding needs at least 20 parts (fewer panics); no decoded attribute contains '/' |
| Mqtt.ParseTopicFields | internal/transport/mqtt/mqtt.go:50-71 | the decoded attributes are exactly parts 1 to 19 of the split topic, in declaration order |
| Mqtt.ParseTopicUsesOnlyParts1To19 | internal/transport/mqtt/mqtt.go:50-71 | topics that agree on parts 1 to 19 decode to the same record, whatever part 0 and parts 20 onwards hold |
| Mqtt.ParseTopicIgnoresTrailing | internal/transport/mqtt/mqtt.go:50-71 | a topic with more than 20 parts decodes like its first 20 parts rejoined |
| Mqtt.TopicOfParseTopic | internal/transport/mqtt/mqtt.go:49-72 | a 20-part topic that starts with '/' is rebuilt exactly from its decoded record |
| Mqtt.ParseTopicOfTopicOf | internal/transport/mqtt/mqtt.go:49-72 | a record whose attributes contain no '/' decodes back from its topic |
| Mqtt.ExampleTopicDecoded | internal/transport/mqtt/mqtt.go:49-72 | the example topic's 20 parts map positionally onto the complete record: vehicle Bus42, geohash head 60;24 |
| Mqtt.BusDataSubscriber.SubscribeToTopic | internal/transport/mqtt/mqtt.go:75-81 | exactly one subscription request for the topic; nil when the broker accepts, otherwise an error naming the topic and the broker's cause |
| Mqtt.BusDataSubscriber.ListenToAllTopics | internal/transport/mqtt/mqtt.go:84-88 | exactly one subscription request, for "#"; a refusal returns nothing |
| Mqtt.BusDataSubscriber.MqttMessageHandler | internal/transport/mqtt/mqtt.go:43-46 | the payload is ignored; exactly one record, the topic's decoding, is appended to the shared channel |
| Config.GetEnv | internal/config/tools.go:12-18 | the environment's value whenever the key is set, else the fallback |
| Config.GetEnvEmptyIsKept | internal/config/tools.go:13-15 | a key set to the empty text yields "", not the fallback |
| Config.SplitFloat | internal/config/tools.go:43-47 | the integer part is within int64 and the fractional part is exactly six digits |
| Config.SplitFloatFixed6 | internal/config/tools.go:43-47 | on `%.6f` text with sign, digits and six decimals, the result is the signed integer (clamped to int64) and the six decimals unchanged |
| Config.SplitFloatNegativeZero | internal/config/tools.go:44-46 | a coordinate between -1 and 0 loses its sign: the integer part is 0 |
| Config.InterleaveShape | internal/config/tools.go:50-60 | the pieces alternate a[k], b[k] while both last, then the tail of the longer string one character each; there are \|a\|+\|b\| pieces |
| Config.InterleaveAndFormat | internal/config/tools.go:50-60 | the loop's result is the '/'-join of the interleaved one-character pieces |
| Config.InterleaveAndFormatLength | internal/config/tools.go:50-60 | two empty inputs give ""; otherwise the text is 2(\|a\|+\|b\|)-1 long, with a slash at each of the \|a\|+\|b\|-1 odd positions between the one-character pieces |
| Config.ConvertToCustomGeohash | internal/config/tools.go:21-40 | a bad latitude is reported first and a bad longitude only after the latitude parsed; the result is a geohash exactly when both parse |
| Config.NonFiniteLatitudeBadLongitude | internal/config/tools.go:21-32 | a latitude that parses to NaN still lets a bad longitude be reported, since splitFloat is reached only when both parse |
| Config.GeohashShape | internal/config/tools.go:32-39 | a success splits on '/' into 13 segments: "latInt;lonInt", then the latitude and longitude decimals alternating |
| InfluxDB.Tags | internal/database/influxdb/influxdb.go:56-67 | the tag map has exactly the 10 tag keys |
| InfluxDB.FieldMap | internal/database/influxdb/influxdb.go:68-78 | the field map has exactly the 9 field keys |
| InfluxDB.PointRoundTrip | internal/database/influxdb/influxdb.go:56-84 | the point is in measurement busTelemetry, and every attribute of the record can be read back from it |
| InfluxDB.TagsAndFieldsPartition | internal/database/influxdb/influxdb.go:56-78 | tag and field keys are disjoint, 10 and 9 of them, 19 in all: each attribute is stored exactly once |
| InfluxDB.Points | internal/database/influxdb/influxdb.go:54-84 | the points of a run of records: one per record, in order |
| InfluxDB.PointsSnoc | internal/database/influxdb/influxdb.go:54-84 | one more record adds its point at the end |
| InfluxDB.PointsRoundTrip | internal/database/influxdb/influxdb.go:54-84 | each point of a run reads back as the record it came from |
| InfluxDB.BusDataManager.Accepted | internal/database/influxdb/influxdb.go:86-90 | no more points are stored than records were attempted, each stored point is the point of an attempted record, and every attempted record's point is stored when no write fails |
| InfluxDB.BusDataManager.AcceptedSnoc | internal/database/influxdb/influxdb.go:86-90 | one more write adds its point at the end exactly when the store accepts it |
| InfluxDB.BusDataManager.WriteToInfluxDB | internal/database/influxdb/influxdb.go:54-92 | one point is attempted and kept only if accepted; the invariant holds; the error returned is nil on every path |
| InfluxDB.StopsFrom | internal/database/influxdb/influxdb.go:96-121 | the stop loop never queries more stops than it was given |
| InfluxDB.BusDataManager.FindBusesFromStops | internal/database/influxdb/influxdb.go:94-122 | the nested loops compute the stop-loop specification: record, error and the queries made, in order |
| InfluxDB.ScanRowsIsLastVehicle | internal/database/influxdb/influxdb.go:108-114 | the row loop leaves the record of the last busTelemetry row's vehicle, or the record it started with |
| InfluxDB.StopsFromLastMatch | internal/database/influxdb/influxdb.go:96-121 | with no errors, the stop loop from any point equals a backward search for the last match |
| InfluxDB.FromStopsLastMatchWins | internal/database/influxdb/influxdb.go:94-122 | last match wins: with no errors every stop is queried, the error is nil, and the record holds only the last matching vehicle (the zero record for no match or no stops) |
| InfluxDB.StopsFromFirstError | internal/database/influxdb/influxdb.go:103-118 | the first failing query or stream returns the record built so far with that error |
| InfluxDB.FromStopsFirstErrorStops | internal/database/influxdb/influxdb.go:103-118 | after the first error no further stop is queried, and that error is returned |
| InfluxDB.FromStopsTestScenario | internal/database/influxdb/influxdb.go:94-122 | stop1 with a Bus123 row and stop2 with none give the Bus123 record and no error |
| InfluxDB.RouteRecords | internal/database/influxdb/influxdb.go:137-146 | one record per busTelemetry row and nothing else (both directions), at most one per row |
| InfluxDB.RouteRecordsSnoc | internal/database/influxdb/influxdb.go:138-146 | records come in row order: a later row's record comes after the earlier ones |
| InfluxDB.BusDataManager.QueryData | internal/database/influxdb/influxdb.go:125-153 | the loop computes the next-stop query's records, or only the error when the query or its stream fails |
| InfluxDB.NearRecords | internal/database/influxdb/influxdb.go:169-178 | one record per row, whatever its measurement |
| InfluxDB.BusDataManager.FindBusesNear | internal/database/influxdb/influxdb.go:156-185 | the loop computes one record per row of the geohash query, in order, or only the error |
| Services.BusDataService.constructor | internal/services/bus_data_service.go:26-34 | the service keeps the manager, the channel and the subscriber it is given; the subscriber's handler sends on the same channel the service reads, as `cmd/finbus/main.go` wires them |
| Services.BusDataService.WriteBusData | internal/services/bus_data_service.go:54-56 | exactly the manager's write; the error returned is nil |
| Services.BusDataService.ProcessData | internal/services/bus_data_service.go:36-42 | as the channel's sole reader, the channel is drained; each queued record is written exactly once, in order received, whatever earlier writes did; the error branch is unreachable |
| Services.BusDataService.QueryBusesNear | internal/services/bus_data_service.go:45-51 | a geohash failure returns its error with no query; otherwise FindBusesNear's answer for that geohash, unchanged |
| Services.BusDataService.SubscribeToBusUpdates | internal/services/bus_data_service.go:58-70 | no subscription request on a geohash failure; otherwise one for the geohash; a refusal gives a nil channel and the error, an acceptance gives the shared channel |
| Services.BusDataService.GetBusQueryFromStops | internal/services/bus_data_service.go:72-74 | FindBusesFromStops's answer, unchanged |

## Left out

- Connecting to the store and the broker is not modelled, for lack of anything to state
  beyond a foreign call. This covers `NewBusDataManager`, `GetClient`, `NewBusDataSubscriber`
  and its connect callbacks. The constructors take the store, write outcome and broker as
  parameters instead.
- Flux query text is not modelled: the bucket, `range(start: -1h)` and the
  `_measurement` filter are interpreted by the store. A query is reduced to its equality
  predicate.
- The `influxdb.go` configuration constants are not modelled. They are read through `GetEnv`
  at package initialisation; the token is a secret with no behaviour.
- Timestamps (`time.Now()`), logging and printing are left out. They do not affect any
  returned value or stored attribute.
- Concurrency is left out. `processData` runs on its own goroutine and blocks on an empty
  channel forever. `Services.BusDataService.ProcessData` drains the records queued at the
  time of the call.
- Services.BusDataService.ProcessData writes every queued record only because the model
  runs it as the channel's sole reader. In the running program each WebSocket client
  returned by `SubscribeToBusUpdates` ranges over the same channel
  (`internal/transport/ws/websocket.go:55`). A Go channel hands each record to one receiver,
  so records a client takes are never persisted. That competition is not modelled.
- Message delivery by the broker is left out. `MqttMessageHandler` models one callback
  invocation, not the broker calling it.
- `config.GetGeohash` is not part of this model. It is taken as a parameter, and nothing is
  assumed of it; in particular it is not equated with `ConvertToCustomGeohash`.
- The integration test's coordinates (60.1699, 24.9384) (`tests/websocket_test.go:49`) are not
  turned into a cell, because that goes through `GetGeohash`.
- Float parsing and `%.6f` formatting are left out. They are the `formatFloat` parameter of
  `Config.ConvertToCustomGeohash`.
- Config.ConvertToCustomGeohash requires, when both texts parse, that both `%.6f` texts are
  finite. For NaN and infinities (which `ParseFloat` accepts) Go prints no '.', and
  `splitFloat` would panic on `parts[1]`; that panic is not modelled. When either text fails
  to parse, `splitFloat` is never reached and the error is modelled for every input
  (`Config.NonFiniteLatitudeBadLongitude`).
- Config.SplitFloat covers only `%.6f` text, whose integer part always has at least one digit.
  `Atoi`'s syntax-error path cannot arise there and is not modelled.
- The example topic is taken already split into its parts
  (`Mqtt.ExampleTopicDecoded`). That the literal text splits into those parts is not proved.
- The specification functions of the three queries read a missing column as "". The methods
  require the columns they read (next item), so that default never reaches a result.
- Strings.Split works on characters. Go splits bytes, which is the same for a one-byte
  separator and ASCII text; `interleaveAndFormat` indexes bytes, and its input is ASCII digits.
- InfluxDB.BusDataManager.FindBusesFromStops requires that every busTelemetry row of each
  stop it reads carries `vehicle_id`. A stop is read only when the queries and streams of
  all stops before it succeeded, so rows after the first failure are unconstrained. The same holds for `InfluxDB.BusDataManager.QueryData`
  (`vehicle_id`, `route_id`) and `InfluxDB.BusDataManager.FindBusesNear` (five columns, on
  every row). In Go, a missing column or a non-string value makes the `.(string)` assertion
  panic; that panic is not modelled, and row values are modelled as strings.
- Go's nil slice and empty slice are not distinguished: a query with no matching rows gives
  `Ok([])`.
- Sending on the channel never blocks in the model: its buffer is unbounded.
- An unsubscribe on close, wildcard filters, per-client channels and a back-pressure policy
  do not exist in the code, so they are not modelled.
- `rest.go`, `websocket.go`, `main.go` and the older `BusDataService.go` are outside the core
  and are not part of this model.
