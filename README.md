# Sea-temperature streaming and report listing, modelled in Dafny

The model covers three things in this MongoDB weather-report service:

- **`SeaTemperatureService.streamSeaTemperatures`** reads a stream of weather reports. It
  skips reports with no sea-surface temperature. It keeps the first point at each
  (longitude, latitude) pair. It hands the points to a consumer in batches of 10, then
  sends the non-empty remainder. If reading a report throws, the stream ends early.
- **`WeatherDataAccess`** has two parts:
  - `listReports` picks a time filter, a `$skip`/`$limit` window and a `$count` facet,
    and turns the aggregation result into one page with a page count;
  - `streamSeaTemperatures` builds its filter list, reads a cursor, turns each record
    into a point and hands on full batches of 10 only.
- **`AccessLog`** is the request-logging filter:
  - it keeps a per-thread slot of SSE statistics, written by `updateSseStats`;
  - `logPostRequest` picks the log level and line from those statistics or from the
    response status;
  - `logContext` formats the line.

Files:

| file | module | content |
|---|---|---|
| `records.dfy` | `Records` | the records: reports, points, summaries, one pass's result |
| `batching.dfy` | `Batching` | batching functions `Chunks` and `FullChunks`, and the `Collect` step both loops use |
| `sea_temperature_service.dfy` | `SeaTemperatureService` | the service loop, and a reference pipeline it is proved equal to: read up to the first fault, keep reports with a temperature, map them to points, de-duplicate |
| `weather_data_access.dfy` | `WeatherDataAccess` | the list's filter, window, count and page; the stream's filter list and cursor loop |
| `access_log.dfy` | `AccessLog` | levels, suffixes, line format, and the statistics slot as a class |

How the model stands in for the store and the runtime:

- The document store is replaced by its inputs and outputs:
  - the list takes the summaries that pass `$match`, in storage order;
  - each stream takes the sequence of records its cursor or callback delivers.
- A Java exception while reading a record becomes `completed == false`:
  - the batches handed on before the exception are kept;
  - the service's final flush is not reached.
- Coordinates and temperatures are only compared for equality, so they are `real`.
- The page number is a Java `int`, and `page * 10` wraps as 32-bit arithmetic does: a page above 214748364 shows the window at the wrapped skip, or is refused by the store when that skip is negative.

## Model

S = `src/main/java/com/luketn/seatemperature/SeaTemperatureService.java`, W = `src/main/java/com/luketn/dataaccess/mongodb/WeatherDataAccess.java`, A = `src/main/java/com/luketn/api/filters/AccessLog.java` (full paths in the table).

| member | source | states |
|---|---|---|
| Records.ToSeaTemperature | src/main/java/com/luketn/seatemperature/SeaTemperatureService.java:38-48 | a point takes its longitude and latitude from `coordinates[0]` and `[1]` and its temperature from the measurement value, defined only when a temperature and two coordinates exist |
| Records.Points | src/main/java/com/luketn/dataaccess/mongodb/WeatherDataAccess.java:127-131 | one point per record, same length, point `i` is record `i`'s point |
| Batching.Collect | src/main/java/com/luketn/seatemperature/SeaTemperatureService.java:50-54 | adding a point and flushing a full buffer keeps every batch full and the buffer short, loses and reorders nothing, and at most appends one batch |
| Batching.Chunks | src/main/java/com/luketn/seatemperature/SeaTemperatureService.java:50-58 | each batch of the service holds 1 to n points; `ChunksFlatten`, `ChunksSizes`, `ChunksCount` and `ChunksOfFullBatches` state the rest |
| Batching.FullChunks | src/main/java/com/luketn/dataaccess/mongodb/WeatherDataAccess.java:132-139 | each batch of the data-access loop holds exactly n points; `FullChunksShape` and `FullChunksOfFullBatches` state the rest |
| Batching.ChunksFlatten | src/main/java/com/luketn/seatemperature/SeaTemperatureService.java:50-58 | the concatenation of the service's batches is exactly the accepted points |
| Batching.ChunksSizes | src/main/java/com/luketn/seatemperature/SeaTemperatureService.java:51-58 | no batches iff no points; each batch has 1 to n points; all but the last exactly n |
| Batching.ChunksCount | src/main/java/com/luketn/seatemperature/SeaTemperatureService.java:51-58 | there are ceil(m / n) batches for m points |
| Batching.FirstChunkFull | src/test/java/com/luketn/api/WeatherApiStreamSeedDataTest.java:275 | with at least n points the first batch is the first n points |
| Batching.ChunksOfFullBatches | src/main/java/com/luketn/seatemperature/SeaTemperatureService.java:51-58 | full batches then a short buffer, flushed when non-empty, are exactly the batching of their concatenation |
| Batching.FlattenFullLength | src/main/java/com/luketn/seatemperature/SeaTemperatureService.java:51-53 | k full batches hold k * n points |
| Batching.FullChunksOfFullBatches | src/main/java/com/luketn/dataaccess/mongodb/WeatherDataAccess.java:132-139 | full batches and an unflushed buffer are exactly the full-only batching of their concatenation |
| Batching.FullChunksShape | src/main/java/com/luketn/dataaccess/mongodb/WeatherDataAccess.java:132-139 | full-only batching gives floor(m / n) batches of exactly n and drops the last m mod n points |
| Batching.ChunksExtendFullChunks | src/main/java/com/luketn/seatemperature/SeaTemperatureService.java:51-58 | the service's batching is the full-only batching plus the non-empty remainder |
| SeaTemperatureService.Accept | src/main/java/com/luketn/seatemperature/SeaTemperatureService.java:34-55 | the callback's pass: at most one point per report, none at a coordinate already seen; `AcceptIsReference` equates it with the filter-map-de-duplicate pipeline |
| SeaTemperatureService.StreamSeaTemperatures | src/main/java/com/luketn/seatemperature/SeaTemperatureService.java:28-59 | the loop's batches and completion equal the batching of `Accept`'s points: all batches plus the remainder when the pass ends normally, full batches only when a read throws |
| SeaTemperatureService.ReadablePrefix | src/main/java/com/luketn/seatemperature/SeaTemperatureService.java:35-39 | the reports before the first one whose coordinates throw, and that report is unreadable |
| SeaTemperatureService.WithTemperature | src/main/java/com/luketn/seatemperature/SeaTemperatureService.java:35-37 | every kept report is an input report with a temperature |
| SeaTemperatureService.AcceptIsReference | src/main/java/com/luketn/seatemperature/SeaTemperatureService.java:34-55 | the callback's pass equals the reference pipeline: read up to the first fault, keep reports with a temperature, map to points, first-wins de-duplication by coordinate |
| SeaTemperatureService.Dedup | src/main/java/com/luketn/seatemperature/SeaTemperatureService.java:42-46 | first-wins de-duplication: no longer than its input and never at a coordinate already seen; `DedupUnique`, `DedupKeepsFirst`, `DedupComplete` and `DedupInOrder` state the rest |
| SeaTemperatureService.DedupSound | src/main/java/com/luketn/seatemperature/SeaTemperatureService.java:42-46 | every kept point is from the input and at a coordinate not seen before |
| SeaTemperatureService.DedupUnique | src/main/java/com/luketn/seatemperature/SeaTemperatureService.java:42-46 | no two kept points share a coordinate pair |
| SeaTemperatureService.DedupKeepsFirst | src/main/java/com/luketn/seatemperature/SeaTemperatureService.java:42-46 | the first point at an unseen coordinate is kept and is the only kept point there |
| SeaTemperatureService.DedupComplete | src/main/java/com/luketn/seatemperature/SeaTemperatureService.java:42-46 | every unseen coordinate of the input has a kept point |
| SeaTemperatureService.DedupInOrder | src/main/java/com/luketn/seatemperature/SeaTemperatureService.java:42-50 | kept points are a subsequence of the input, in input order |
| SeaTemperatureService.NoTemperatureIgnored | src/main/java/com/luketn/seatemperature/SeaTemperatureService.java:35-37 | inserting a report without a temperature anywhere changes nothing |
| SeaTemperatureService.DeliveredCoordinatesUnique | src/main/java/com/luketn/seatemperature/SeaTemperatureService.java:31-46 | no two delivered points share a coordinate pair |
| SeaTemperatureService.DeliveredPointsComeFromReports | src/main/java/com/luketn/seatemperature/SeaTemperatureService.java:35-48 | every delivered point is the point of some input report with a temperature |
| SeaTemperatureService.DeliversEveryCoordinate | src/main/java/com/luketn/seatemperature/SeaTemperatureService.java:35-50 | on a completed pass every coordinate carrying a temperature is delivered |
| SeaTemperatureService.DeliversFirstReportAtEachCoordinate | src/main/java/com/luketn/seatemperature/SeaTemperatureService.java:42-50 | on a completed pass the first report with a temperature at a coordinate is delivered and is the only point there |
| SeaTemperatureService.CompletedPoints | src/main/java/com/luketn/seatemperature/SeaTemperatureService.java:34-55 | on a completed pass the points are the de-duplication of all temperature reports' points |
| SeaTemperatureService.DeliveredInSourceOrder | src/main/java/com/luketn/seatemperature/SeaTemperatureService.java:34-55 | delivered points keep the order of the reports they come from |
| SeaTemperatureService.ServiceBatchShape | src/main/java/com/luketn/seatemperature/SeaTemperatureService.java:50-58 | a completed pass's batches: concatenate to the points, 1 to 10 each, all but the last 10, ceil(n/10) of them, first batch full when n >= 10 |
| WeatherDataAccess.Wrap32 | src/main/java/com/luketn/dataaccess/mongodb/WeatherDataAccess.java:61 | the result is a Java int congruent to the input mod 2^32, and the identity on Java ints |
| WeatherDataAccess.ListReportsFilter | src/main/java/com/luketn/dataaccess/mongodb/WeatherDataAccess.java:44-56 | the filter compares only `ts`, and is the match-all document iff neither bound is given; `ListReportsFilterWindow` states what it matches |
| WeatherDataAccess.ListReportsFilterWindow | src/main/java/com/luketn/dataaccess/mongodb/WeatherDataAccess.java:44-56 | the list's filter compares only `ts` and matches a timestamp iff it is inside the closed window of the given bounds |
| WeatherDataAccess.ListReportsQuery | src/main/java/com/luketn/dataaccess/mongodb/WeatherDataAccess.java:57-62 | the aggregation uses the list's filter, limit 10, and skip page * 10 when that does not overflow |
| WeatherDataAccess.RunFacets | src/main/java/com/luketn/dataaccess/mongodb/WeatherDataAccess.java:57-75 | the store refuses exactly a negative skip, and a page holds at most `limit` reports |
| WeatherDataAccess.TotalPages | src/main/java/com/luketn/dataaccess/mongodb/WeatherDataAccess.java:81 | the page count is the least p with 10 * p >= total |
| WeatherDataAccess.CountOrZero | src/main/java/com/luketn/dataaccess/mongodb/WeatherDataAccess.java:77-80 | a null count reads as 0, otherwise the count |
| WeatherDataAccess.BuildPageAsWritten | src/main/java/com/luketn/dataaccess/mongodb/WeatherDataAccess.java:77-86 | fails iff the summary facet is empty; otherwise echoes reports and page and counts pages from the first summary |
| WeatherDataAccess.BuildPage | src/main/java/com/luketn/dataaccess/mongodb/WeatherDataAccess.java:77-86 | echoes reports and page; an empty summary gives 0 pages; otherwise agrees with the code as written |
| WeatherDataAccess.PageSlice | src/main/java/com/luketn/dataaccess/mongodb/WeatherDataAccess.java:61-62 | a page shows at most 10 reports |
| WeatherDataAccess.ListReportsAsWritten | src/main/java/com/luketn/dataaccess/mongodb/WeatherDataAccess.java:40-87 | `listReports` as written: refused by the store iff the wrapped skip is negative, throws `NoSuchElement` iff the skip is valid and nothing matches, otherwise echoes the page |
| WeatherDataAccess.ListReports | src/main/java/com/luketn/dataaccess/mongodb/WeatherDataAccess.java:40-87 | `listReports` with the empty result handled: fails iff the wrapped skip is negative, and then only as refused by the store; otherwise echoes the page and shows at most 10 reports |
| WeatherDataAccess.ListReportsPage | src/main/java/com/luketn/dataaccess/mongodb/WeatherDataAccess.java:40-87 | for a page that does not overflow: success, the matches from index page * 10 (at most 10, in order), page echoed, ceil(count/10) pages, an empty page and 0 pages when nothing matches |
| WeatherDataAccess.ListReportsAtWrappedSkip | src/main/java/com/luketn/dataaccess/mongodb/WeatherDataAccess.java:61-62 | for any page whose `page * 10` wraps to a non-negative Java `int`, the page shows at most 10 matches from that wrapped skip on, echoes the page and counts ceil(count/10) pages |
| WeatherDataAccess.OverflowingPageWraps | src/main/java/com/luketn/dataaccess/mongodb/WeatherDataAccess.java:61 | page 429496730 over 20 matches shows `matches[4..14]` under page 429496730 of 2, because `page * 10` wraps to 4 |
| WeatherDataAccess.FirstPageOfFewMatches | src/test/java/com/luketn/api/WeatherApiTest.java:108-115 | 1 to 10 matches on page 0 give all of them, in order, on page 0 of 1 |
| WeatherDataAccess.NegativeSkipRejected | src/main/java/com/luketn/dataaccess/mongodb/WeatherDataAccess.java:61 | a page whose wrapped skip is negative fails at the store, in both versions |
| WeatherDataAccess.EmptyMatchFailsAsWritten | src/main/java/com/luketn/dataaccess/mongodb/WeatherDataAccess.java:77 | as written, a request that matches nothing fails with `NoSuchElement` |
| WeatherDataAccess.AsWrittenAgreesWhenSomethingMatches | src/main/java/com/luketn/dataaccess/mongodb/WeatherDataAccess.java:77-80 | with at least one match the corrected list equals the code as written |
| WeatherDataAccess.StreamFilters | src/main/java/com/luketn/dataaccess/mongodb/WeatherDataAccess.java:100-111 | the filter list, position by position: both existence checks, the `ts` lower bound iff `from`, the upper bound iff `to`, the geo circle last iff all three are given, radius in radians; nothing else |
| WeatherDataAccess.StreamFiltersBounds | src/main/java/com/luketn/dataaccess/mongodb/WeatherDataAccess.java:103-111 | the list holds a lower bound iff `from`, an upper bound iff `to`, a geo clause iff all three geo parameters |
| WeatherDataAccess.Convert | src/main/java/com/luketn/dataaccess/mongodb/WeatherDataAccess.java:125-131 | at most one point per record; the pass completes iff every record gave a point |
| WeatherDataAccess.ConvertMeaning | src/main/java/com/luketn/dataaccess/mongodb/WeatherDataAccess.java:125-131 | point `i` is record `i`'s point, and an early stop is at a record without a temperature or with fewer than two coordinates |
| WeatherDataAccess.ConvertAll | src/main/java/com/luketn/dataaccess/mongodb/WeatherDataAccess.java:125-132 | when every record converts, the pass completes with every record's point |
| WeatherDataAccess.StreamBatches | src/main/java/com/luketn/dataaccess/mongodb/WeatherDataAccess.java:124-139 | the loop hands on exactly the full batches of 10 of the converted points, and completes iff no record faults |
| WeatherDataAccess.StreamSeaTemperatures | src/main/java/com/luketn/dataaccess/mongodb/WeatherDataAccess.java:96-140 | the query is the conjunction of the described filter list, and the batches are the full-only batching of the cursor's points |
| WeatherDataAccess.StreamDeliversOnlyFullBatches | src/main/java/com/luketn/dataaccess/mongodb/WeatherDataAccess.java:132-139 | floor(n/10) batches of exactly 10; the last n mod 10 converted points are never delivered; when the cursor is read to the end, every record converts and the delivered points are the first records' points, in cursor order |
| AccessLog.NatString | src/main/java/com/luketn/api/filters/AccessLog.java:48 | at least one digit, all decimal, no leading zero |
| AccessLog.NatStringRoundTrip | src/main/java/com/luketn/api/filters/AccessLog.java:48 | the digits read back as the number |
| AccessLog.DecimalString | src/main/java/com/luketn/api/filters/AccessLog.java:48 | starts with a minus sign iff the number is negative |
| AccessLog.DecimalStringRoundTrip | src/main/java/com/luketn/api/filters/AccessLog.java:48 | the rendering reads back as the same integer |
| AccessLog.LevelFor | src/main/java/com/luketn/api/filters/AccessLog.java:53-60 | WARN iff 400 <= status < 500, ERROR iff status >= 500, INFO iff status < 400 |
| AccessLog.EventNoun | src/main/java/com/luketn/api/filters/AccessLog.java:48 | "event" iff exactly one event, "events" otherwise |
| AccessLog.TimeTakenSuffix | src/main/java/com/luketn/api/filters/AccessLog.java:42 | opens with `(`, ends with `ms)`, and what lies between is a decimal integer that reads back as the execution time |
| AccessLog.LoggedStatus | src/main/java/com/luketn/api/filters/AccessLog.java:45-51 | the stream's last status when statistics are set, the response status otherwise |
| AccessLog.PostRequestSuffix | src/main/java/com/luketn/api/filters/AccessLog.java:45-52 | opens with `(sse: ` iff statistics are set, otherwise with `(status: `, and always ends with the time taken |
| AccessLog.QueryPart | src/main/java/com/luketn/api/filters/AccessLog.java:70 | empty iff there is no query string, otherwise `?` followed by it |
| AccessLog.LogContext | src/main/java/com/luketn/api/filters/AccessLog.java:68-73 | the given logger and level; the message is method, space, URI, query part, space, suffix |
| AccessLog.PreRequestEntry | src/main/java/com/luketn/api/filters/AccessLog.java:64-66 | INFO on the request logger; its message is the common request part: any line about the request with suffix `x` is this message followed by `x` |
| AccessLog.AccessLineExtendsRequestLine | src/main/java/com/luketn/api/filters/AccessLog.java:61-72 | the line after a request is the line before it followed by the post-request suffix |
| AccessLog.AccessLog.constructor | src/main/java/com/luketn/api/filters/AccessLog.java:20 | the slot starts empty |
| AccessLog.AccessLog.UpdateSseStats | src/main/java/com/luketn/api/filters/AccessLog.java:25-27 | the slot holds the given value afterwards |
| AccessLog.AccessLog.PostRequestEntry | src/main/java/com/luketn/api/filters/AccessLog.java:41-62 | on the access logger, at the level of the logged status, with the post-request suffix |
| AccessLog.AccessLog.DoFilterInternal | src/main/java/com/luketn/api/filters/AccessLog.java:30-39 | the pre-request line, then the slot as the chain left it, then the post-request line timed by the two clock readings |
| AccessLog.LogAfterStream | src/main/java/com/luketn/api/filters/AccessLog.java:25-62 | after `updateSseStats(s)` the post-request line has the level of `s`'s last status and the SSE suffix |

## Left out

- The MongoDB driver, `MongoDBProvider`, projection, `batchSize(10)` and cursor closing: the store is replaced by its inputs and outputs, as described above.
- `$geoWithin`/`$centerSphere` semantics: a geo clause is modelled as a value and never evaluated.
- The BoundingBox `streamSeaTemperatures` overload and its per-report callback, which the service calls: that overload is not part of the shown data-access class, so the service takes the reports the callback receives as an input sequence.
- `getReport`: it is one driver lookup, with no logic of its own.
- The SSE transport, JSON encoding, controllers and the application entry point: they are outside the modelled core.
- Logger output: a log line is the `LogEntry` value handed to the logger; the logger's formatting and writing are not modelled.
- The clock in `doFilterInternal`: its two readings are parameters.
- The filter chain: the value it writes to the statistics slot is a parameter, and it always returns, so the `finally` order is the plain order.
- The thread-local: one `AccessLog` object stands for the slot of one thread. The shown code never clears the slot, and the model keeps that, so statistics stay until overwritten.
- Null values inside a report, which the records cannot express (a position and its coordinate list are always present, coordinates are reals, and a present measurement always has a value):
  - In the service, a null `position` or `coordinates` list throws at S:38, and the stream ends like it does for a list with fewer than two coordinates.
  - In the service, a null coordinate element or a null measurement value is read into a boxed `Double` without a fault. The throw comes at S:48, where the point's primitive fields unbox them, and S:48 is reached only at an unseen coordinate, after S:46 has recorded it. The same report at an already-seen coordinate is skipped at S:43-44 like any duplicate.
  - In the data-access loop, any of these throws at W:128-130 and ends the stream.
- The consumer is taken to accept every batch. In the code, a consumer that throws, such as an SSE send to a client that has disconnected, ends the stream at S:52 or W:135, and it receives only a prefix of the modelled batches.
- `SseStats` is not defined in the shown `SynchronousSse.java`. Its two fields, an `int` event count and a status whose `value()` is an `int`, are inferred from their uses at src/main/java/com/luketn/api/filters/AccessLog.java:46-47.
- Quality codes, air temperature and other report fields: no step of the core reads them.
- Floating point: coordinates, temperatures and the radius in radians are exact reals. `Math.ceil((double) total / 10)` is modelled by integer ceiling, which it equals for every Java `int` total.
- AccessLog.PostRequestSuffix: its contract gives the opening and the ending of the suffix, not the full text. The full text, with its event count and status, is in the body, and `DecimalStringRoundTrip` proves that the numbers in it read back unchanged.

## Findings

| source | as written | input that shows it | evidently intended | confidence | as-written member | corrected member |
|---|---|---|---|---|---|---|
| src/main/java/com/luketn/dataaccess/mongodb/WeatherDataAccess.java:77 | `result.summary().getFirst().count()`, then a null check on the count | a time range that matches no report: `$count` emits no document, so `summary` is an empty list and `getFirst()` throws `NoSuchElementException` | an empty page with `totalPages == 0`, which the null check was written for | medium — relies on `$count` emitting nothing for empty input; not executed | WeatherDataAccess.EmptyMatchFailsAsWritten | WeatherDataAccess.BuildPage |
