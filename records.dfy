/**
 * The records the sea-temperature pipeline works on: weather reports as read
 * from the "data" collection, the points handed to clients, and the summary
 * records of the paginated list. Coordinates and temperatures are only ever
 * compared for equality, so they are `real`.
 */
module Records {

  datatype Option<T> = None | Some(value: T)

  /** An instant (`java.time.Instant`); only ever compared, so any ordered carrier will do. */
  type Instant = int

  /** A measured value (`WeatherReport.Measurement`); its quality code is not used. */
  datatype Measurement = Measurement(value: real)

  /** A GeoJSON position: `coordinates` is `[longitude, latitude]` when well formed. */
  datatype Position = Position(coordinates: seq<real>)

  /**
   * A weather report. Only the two parts the core reads are kept: the
   * position and the sea-surface temperature, which may be absent.
   */
  datatype WeatherReport = WeatherReport(position: Position, seaSurfaceTemperature: Option<Measurement>)

  /** A sea-surface temperature at a coordinate, as delivered to clients. */
  datatype SeaTemperature = SeaTemperature(lon: real, lat: real, temp: real)

  /** Query area given by latitude (north, south) and longitude (east, west) bounds. */
  datatype BoundingBox = BoundingBox(north: real, south: real, east: real, west: real)

  /** Query area given by a centre and a radius in metres. */
  datatype DistanceFromCentre = DistanceFromCentre(longitude: real, latitude: real, metersRadius: real)

  /** One row of the paginated report list. */
  datatype WeatherReportSummary = WeatherReportSummary(
    id: string,
    ts: Instant,
    seaSurfaceTemperature: Option<real>,
    airTemperature: Option<real>)

  /** One page of the report list, with the page echoed and the page count. */
  datatype WeatherReportSummaryList = WeatherReportSummaryList(
    reports: seq<WeatherReportSummary>,
    page: int,
    totalPages: int)

  /**
   * What a pass over a cursor produced: the points it accepted, in order, and
   * whether it reached the end of the cursor (false when reading a report
   * threw and ended the stream).
   */
  datatype Scan = Scan(points: seq<SeaTemperature>, completed: bool)

  /** A pass that has already accepted `acc`, followed by the `rest` of it. */
  function Resume(acc: seq<SeaTemperature>, rest: Scan): Scan
  {
    Scan(acc + rest.points, rest.completed)
  }

  lemma ResumeAfterTake(acc: seq<SeaTemperature>, p: SeaTemperature, rest: Scan)
    ensures Resume(acc, Scan([p] + rest.points, rest.completed)) == Resume(acc + [p], rest)
  {
    assert acc + ([p] + rest.points) == (acc + [p]) + rest.points;
  }

  /** The identity used for de-duplication: the (longitude, latitude) pair. */
  function CoordinateKey(p: SeaTemperature): (real, real)
  {
    (p.lon, p.lat)
  }

  /**
   * A report both streaming loops can turn into a point without a fault: it
   * has a temperature and at least two coordinates.
   */
  predicate Convertible(r: WeatherReport)
  {
    r.seaSurfaceTemperature.Some? && |r.position.coordinates| >= 2
  }

  /** `new SeaTemperature(coordinates[0], coordinates[1], sst.value)`. */
  function ToSeaTemperature(r: WeatherReport): (p: SeaTemperature)
    requires Convertible(r)
    ensures CoordinateKey(p) == (r.position.coordinates[0], r.position.coordinates[1])
    ensures p.temp == r.seaSurfaceTemperature.value.value
  {
    SeaTemperature(r.position.coordinates[0], r.position.coordinates[1], r.seaSurfaceTemperature.value.value)
  }

  /** Each report turned into its point, in order. */
  function Points(reports: seq<WeatherReport>): (ps: seq<SeaTemperature>)
    requires forall i :: 0 <= i < |reports| ==> Convertible(reports[i])
    ensures |ps| == |reports|
    ensures forall i :: 0 <= i < |ps| ==> ps[i] == ToSeaTemperature(reports[i])
  {
    if reports == [] then [] else [ToSeaTemperature(reports[0])] + Points(reports[1..])
  }
}
