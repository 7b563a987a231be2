/**
 * The weather data-access layer: the time filter and page window of the
 * paginated report list, and the filter list and full-batch loop of the
 * sea-temperature stream. The document store is not modelled: the list takes
 * the store's matching summaries as given ("$match" already applied, in
 * storage order), and the stream takes the cursor's records as given.
 */
module WeatherDataAccess {
  import opened Records
  import opened Batching

  /** `WeatherDataAccess.pageSize`: page length of the list and batch length of the stream. */
  const PageSize: nat := 10

  /** The Earth radius the metre radius is divided by to get radians. */
  const EarthRadiusMeters: real := 6371000.0

  const TsField: string := "ts"
  const CoordinatesField: string := "position.coordinates"
  const SstField: string := "seaSurfaceTemperature.value"

  /** The query predicates the layer builds. */
  datatype Filter =
    | MatchAll                      // `new Document()`
    | Exists(field: string)
    | Gte(field: string, bound: Instant)
    | Lte(field: string, bound: Instant)
    | GeoWithinCenterSphere(field: string, longitude: real, latitude: real, radiusRadians: real)
    | And(clauses: seq<Filter>)

  // ---- Java int arithmetic ----------------------------------------------------

  const TwoTo32: int := 0x1_0000_0000
  const MinInt32: int := -0x8000_0000
  const MaxInt32: int := 0x7fff_ffff

  predicate IsInt32(x: int)
  {
    MinInt32 <= x <= MaxInt32
  }

  /** Two's-complement wrap-around of a Java `int` result. */
  function Wrap32(x: int): (r: int)
    ensures IsInt32(r)
    ensures (r - x) % TwoTo32 == 0
    ensures IsInt32(x) ==> r == x
  {
    var m := (x - MinInt32) % TwoTo32;
    m + MinInt32
  }

  // ---- listReports: time filter ---------------------------------------------

  /** The time filter of `listReports`, chosen by which bounds are present. */
  function ListReportsFilter(from: Option<Instant>, to: Option<Instant>): (f: Filter)
    ensures OnTimestamp(f)
    ensures f == MatchAll <==> from.None? && to.None?
  {
    if from.Some? && to.Some? then And([Gte(TsField, from.value), Lte(TsField, to.value)])
    else if from.Some? then Gte(TsField, from.value)
    else if to.Some? then Lte(TsField, to.value)
    else MatchAll
  }

  /** Filters built only from `ts` comparisons. */
  predicate OnTimestamp(f: Filter)
    decreases f
  {
    match f
    case MatchAll => true
    case Gte(field, _) => field == TsField
    case Lte(field, _) => field == TsField
    case And(cs) => forall i :: 0 <= i < |cs| ==> OnTimestamp(cs[i])
    case _ => false
  }

  /** Whether a document with timestamp `ts` matches a `ts`-only filter. */
  predicate MatchesTs(f: Filter, ts: Instant)
    requires OnTimestamp(f)
    decreases f
  {
    match f
    case MatchAll => true
    case Gte(_, b) => ts >= b
    case Lte(_, b) => ts <= b
    case And(cs) => forall i :: 0 <= i < |cs| ==> MatchesTs(cs[i], ts)
  }

  /** The closed window given by optional bounds. */
  predicate InWindow(ts: Instant, from: Option<Instant>, to: Option<Instant>)
  {
    (from.Some? ==> from.value <= ts) && (to.Some? ==> ts <= to.value)
  }

  /** The list's filter selects exactly the documents inside the requested window. */
  lemma ListReportsFilterWindow(from: Option<Instant>, to: Option<Instant>, ts: Instant)
    ensures OnTimestamp(ListReportsFilter(from, to))
    ensures MatchesTs(ListReportsFilter(from, to), ts) <==> InWindow(ts, from, to)
  {
    if from.Some? && to.Some? {
      var cs := [Gte(TsField, from.value), Lte(TsField, to.value)];
      assert MatchesTs(And(cs), ts) <==> MatchesTs(cs[0], ts) && MatchesTs(cs[1], ts);
    }
  }

  // ---- listReports: page window and page count ------------------------------

  /** The aggregation `listReports` sends: `$match`, then a facet with `$skip`/`$limit` and a `$count` facet. */
  datatype ReportsQuery = ReportsQuery(filter: Filter, skip: int, limit: int)

  /** `Summary(Integer count)`: the count may be null. */
  datatype Summary = Summary(count: Option<int>)

  /** `WeatherReportSummaryAggregate`: the two facets of the one result document. */
  datatype SummaryAggregate = SummaryAggregate(reports: seq<WeatherReportSummary>, summary: seq<Summary>)

  datatype Error =
    | StoreRejected    // the store refuses the aggregation (a negative `$skip`)
    | NoSuchElement    // `summary().getFirst()` on an empty list

  datatype Result<T> = Success(value: T) | Failure(error: Error)

  /** The aggregation for `page`: skip `page * pageSize` in Java `int` arithmetic, limit `pageSize`. */
  function ListReportsQuery(from: Option<Instant>, to: Option<Instant>, page: int): (q: ReportsQuery)
    requires IsInt32(page)
    ensures q.filter == ListReportsFilter(from, to) && q.limit == PageSize
    ensures 0 <= page <= MaxInt32 / PageSize ==> q.skip == page * PageSize
  {
    ReportsQuery(ListReportsFilter(from, to), Wrap32(page * PageSize), PageSize)
  }

  /**
   * What the store returns for the facets, given the documents that pass
   * `$match`, in storage order: skip, then limit, for the reports; and one
   * count document, or none when nothing matched (`$count` emits no document
   * for empty input).
   */
  function RunFacets(matches: seq<WeatherReportSummary>, q: ReportsQuery): (r: Result<SummaryAggregate>)
    requires q.limit > 0
    ensures r.Failure? <==> q.skip < 0
    ensures r.Success? ==> |r.value.reports| <= q.limit
  {
    if q.skip < 0 then Failure(StoreRejected)
    else
      var start := if q.skip < |matches| then q.skip else |matches|;
      var end := if start + q.limit < |matches| then start + q.limit else |matches|;
      Success(SummaryAggregate(
        matches[start..end],
        if |matches| == 0 then [] else [Summary(Some(|matches|))]))
  }

  /** `(int) Math.ceil((double) total / pageSize)`: exact for every Java `int` total. */
  function TotalPages(total: int): (pages: int)
    ensures PageSize * pages >= total
    ensures PageSize * (pages - 1) < total
  {
    -((-total) / PageSize)
  }

  /** The null count read as zero. */
  function CountOrZero(s: Summary): (n: int)
    ensures s.count.None? ==> n == 0
    ensures s.count.Some? ==> n == s.count.value
  {
    match s.count
    case None => 0
    case Some(c) => c
  }

  /**
   * The result of `listReports` built from the aggregation result, as the
   * code is written: `summary().getFirst()` fails on an empty summary list.
   */
  function BuildPageAsWritten(agg: SummaryAggregate, page: int): (r: Result<WeatherReportSummaryList>)
    ensures r.Failure? <==> agg.summary == []
    ensures r.Success? ==>
      r.value.reports == agg.reports && r.value.page == page && r.value.totalPages == TotalPages(CountOrZero(agg.summary[0]))
  {
    if agg.summary == [] then Failure(NoSuchElement)
    else Success(WeatherReportSummaryList(agg.reports, page, TotalPages(CountOrZero(agg.summary[0]))))
  }

  /** The same, with a missing count document read as zero, like a null count. */
  function BuildPage(agg: SummaryAggregate, page: int): (r: WeatherReportSummaryList)
    ensures r.reports == agg.reports && r.page == page
    ensures agg.summary == [] ==> r.totalPages == 0
    ensures agg.summary != [] ==> Success(r) == BuildPageAsWritten(agg, page)
  {
    var total := if agg.summary == [] then 0 else CountOrZero(agg.summary[0]);
    WeatherReportSummaryList(agg.reports, page, TotalPages(total))
  }

  /** `listReports` over the store's matching summaries, as the code is written. */
  function ListReportsAsWritten(from: Option<Instant>, to: Option<Instant>, page: int, matches: seq<WeatherReportSummary>): (r: Result<WeatherReportSummaryList>)
    requires IsInt32(page)
    ensures r == Failure(StoreRejected) <==> Wrap32(page * PageSize) < 0
    ensures r == Failure(NoSuchElement) <==> Wrap32(page * PageSize) >= 0 && matches == []
    ensures r.Success? ==> r.value.page == page
  {
    match RunFacets(matches, ListReportsQuery(from, to, page))
    case Failure(e) => Failure(e)
    case Success(agg) => BuildPageAsWritten(agg, page)
  }

  /** `listReports` over the store's matching summaries, with the empty result handled. */
  function ListReports(from: Option<Instant>, to: Option<Instant>, page: int, matches: seq<WeatherReportSummary>): (r: Result<WeatherReportSummaryList>)
    requires IsInt32(page)
    ensures r.Failure? <==> Wrap32(page * PageSize) < 0
    ensures r.Failure? ==> r.error == StoreRejected
    ensures r.Success? ==> r.value.page == page && |r.value.reports| <= PageSize
  {
    match RunFacets(matches, ListReportsQuery(from, to, page))
    case Failure(e) => Failure(e)
    case Success(agg) => Success(BuildPage(agg, page))
  }

  /** The slice of `matches` shown on `page`. */
  function PageSlice(matches: seq<WeatherReportSummary>, page: nat): (s: seq<WeatherReportSummary>)
    ensures |s| <= PageSize
  {
    var start := if page * PageSize < |matches| then page * PageSize else |matches|;
    var end := if start + PageSize < |matches| then start + PageSize else |matches|;
    matches[start..end]
  }

  /**
   * A non-negative page that does not overflow: the page holds the matches
   * from index `page * 10`, at most 10 of them, in storage order; the page is
   * echoed; `totalPages` is ceil(count / 10); and an empty match set gives an
   * empty page with `totalPages == 0`.
   */
  lemma ListReportsPage(from: Option<Instant>, to: Option<Instant>, page: int, matches: seq<WeatherReportSummary>)
    requires 0 <= page <= MaxInt32 / PageSize
    ensures var r := ListReports(from, to, page, matches);
      && r.Success?
      && r.value.reports == PageSlice(matches, page)
      && r.value.page == page
      && r.value.totalPages == TotalPages(|matches|)
      && (matches == [] ==> r.value.reports == [] && r.value.totalPages == 0)
  {
  }

  /**
   * Any page whose skip, in Java `int` arithmetic, is non-negative: the page
   * shows the matches from the wrapped skip on, at most 10 of them. For a page
   * above `MaxInt32 / 10` that wrapped skip is not `page * 10`.
   */
  lemma ListReportsAtWrappedSkip(from: Option<Instant>, to: Option<Instant>, page: int, matches: seq<WeatherReportSummary>)
    requires IsInt32(page) && Wrap32(page * PageSize) >= 0
    ensures var skip := Wrap32(page * PageSize);
      var start := if skip < |matches| then skip else |matches|;
      var end := if start + PageSize < |matches| then start + PageSize else |matches|;
      var r := ListReports(from, to, page, matches);
      && r.Success?
      && r.value.reports == matches[start..end]
      && r.value.page == page
      && r.value.totalPages == TotalPages(|matches|)
  {
  }

  /** Page 429496730 overflows: `page * 10` wraps to 4, so 20 matches show `matches[4..14]` under that page. */
  lemma OverflowingPageWraps(matches: seq<WeatherReportSummary>)
    requires |matches| == 20
    ensures ListReports(None, None, 429496730, matches) == Success(WeatherReportSummaryList(matches[4..14], 429496730, 2))
  {
    assert Wrap32(429496730 * PageSize) == 4;
    ListReportsAtWrappedSkip(None, None, 429496730, matches);
    assert TotalPages(20) == 2;
  }

  /** With 1 to 10 matches, page 0 shows them all, in order, and there is one page. */
  lemma FirstPageOfFewMatches(from: Option<Instant>, to: Option<Instant>, matches: seq<WeatherReportSummary>)
    requires 1 <= |matches| <= PageSize
    ensures ListReports(from, to, 0, matches) == Success(WeatherReportSummaryList(matches, 0, 1))
  {
    ListReportsPage(from, to, 0, matches);
    assert matches[0..|matches|] == matches;
  }

  /** A page whose skip, in Java `int` arithmetic, is negative is refused by the store. */
  lemma NegativeSkipRejected(from: Option<Instant>, to: Option<Instant>, page: int, matches: seq<WeatherReportSummary>)
    requires IsInt32(page) && Wrap32(page * PageSize) < 0
    ensures ListReports(from, to, page, matches) == Failure(StoreRejected)
    ensures ListReportsAsWritten(from, to, page, matches) == Failure(StoreRejected)
  {
  }

  /** As written, a request that matches nothing throws instead of returning an empty page. */
  lemma EmptyMatchFailsAsWritten(from: Option<Instant>, to: Option<Instant>, page: int)
    requires 0 <= page <= MaxInt32 / PageSize
    ensures ListReportsAsWritten(from, to, page, []) == Failure(NoSuchElement)
  {
  }

  /** The correction changes nothing when something matches. */
  lemma AsWrittenAgreesWhenSomethingMatches(from: Option<Instant>, to: Option<Instant>, page: int, matches: seq<WeatherReportSummary>)
    requires IsInt32(page) && matches != []
    ensures ListReportsAsWritten(from, to, page, matches) == ListReports(from, to, page, matches)
  {
  }

  // ---- streamSeaTemperatures: the filter list ---------------------------------

  /**
   * What the filter list of `streamSeaTemperatures` holds, position by
   * position: the two existence predicates; then the `ts` lower bound when
   * `from` is given; then the `ts` upper bound when `to` is given; then, last,
   * the geo circle when longitude, latitude and radius are all given, with the
   * radius converted from metres to radians. Nothing else is in the list.
   */
  predicate DescribesStreamFilters(filters: seq<Filter>, from: Option<Instant>, to: Option<Instant>,
                                   longitude: Option<real>, latitude: Option<real>, metersRadius: Option<real>)
  {
    var f := if from.Some? then 1 else 0;
    var t := if to.Some? then 1 else 0;
    var circle := longitude.Some? && latitude.Some? && metersRadius.Some?;
    && |filters| == 2 + f + t + (if circle then 1 else 0)
    && filters[0] == Exists(CoordinatesField)
    && filters[1] == Exists(SstField)
    && (from.Some? ==> filters[2] == Gte(TsField, from.value))
    && (to.Some? ==> filters[2 + f] == Lte(TsField, to.value))
    && (circle ==>
          filters[2 + f + t] == GeoWithinCenterSphere(CoordinatesField, longitude.value, latitude.value, metersRadius.value / EarthRadiusMeters))
  }

  /** The `filters.add(...)` sequence of `streamSeaTemperatures`. */
  method StreamFilters(from: Option<Instant>, to: Option<Instant>,
                       longitude: Option<real>, latitude: Option<real>, metersRadius: Option<real>)
    returns (filters: seq<Filter>)
    ensures DescribesStreamFilters(filters, from, to, longitude, latitude, metersRadius)
  {
    filters := [];
    filters := filters + [Exists(CoordinatesField)];
    filters := filters + [Exists(SstField)];
    if from.Some? {
      filters := filters + [Gte(TsField, from.value)];
    }
    if to.Some? {
      filters := filters + [Lte(TsField, to.value)];
    }
    if longitude.Some? && latitude.Some? && metersRadius.Some? {
      filters := filters + [GeoWithinCenterSphere(CoordinatesField, longitude.value, latitude.value, metersRadius.value / EarthRadiusMeters)];
    }
  }

  /**
   * Every clause of the list is one of the kinds named above, and the list
   * holds a `ts` bound exactly when that bound was given (both directions).
   */
  lemma StreamFiltersBounds(filters: seq<Filter>, from: Option<Instant>, to: Option<Instant>,
                            longitude: Option<real>, latitude: Option<real>, metersRadius: Option<real>)
    requires DescribesStreamFilters(filters, from, to, longitude, latitude, metersRadius)
    ensures (exists k :: 0 <= k < |filters| && filters[k].Gte?) <==> from.Some?
    ensures (exists k :: 0 <= k < |filters| && filters[k].Lte?) <==> to.Some?
    ensures (exists k :: 0 <= k < |filters| && filters[k].GeoWithinCenterSphere?) <==>
              (longitude.Some? && latitude.Some? && metersRadius.Some?)
  {
  }

  // ---- streamSeaTemperatures: the cursor loop ---------------------------------

  /**
   * The points the loop builds from the cursor. Every record is converted; a
   * record with fewer than two coordinates (`get(1)` throws) or without a
   * temperature (`value()` on null throws) ends the stream.
   */
  function Convert(cursor: seq<WeatherReport>): (s: Scan)
    ensures |s.points| <= |cursor|
    ensures s.completed <==> |s.points| == |cursor|
  {
    if cursor == [] then Scan([], true)
    else if !Convertible(cursor[0]) then Scan([], false)
    else
      var rest := Convert(cursor[1..]);
      Scan([ToSeaTemperature(cursor[0])] + rest.points, rest.completed)
  }

  /**
   * Each delivered point is the point of the record at the same position;
   * the pass stops at the first record that does not convert.
   */
  lemma {:induction false} ConvertMeaning(cursor: seq<WeatherReport>)
    ensures var s := Convert(cursor);
      && (forall i :: 0 <= i < |s.points| ==> Convertible(cursor[i]) && s.points[i] == ToSeaTemperature(cursor[i]))
      && (!s.completed ==> !Convertible(cursor[|s.points|]))
  {
    if cursor != [] && Convertible(cursor[0]) {
      ConvertMeaning(cursor[1..]);
    }
  }

  /**
   * The `while (cursor.hasNext())` loop: each full batch of `pageSize` is
   * handed to the consumer as a copy and the buffer cleared; the records left
   * in the buffer when the cursor ends are never handed over.
   */
  method StreamBatches(cursor: seq<WeatherReport>) returns (batches: seq<seq<SeaTemperature>>, completed: bool)
    ensures completed == Convert(cursor).completed
    ensures batches == FullChunks(Convert(cursor).points, PageSize)
  {
    var buffer: seq<SeaTemperature> := [];
    batches := [];
    completed := true;
    var i := 0;
    while i < |cursor| && completed
      invariant 0 <= i <= |cursor|
      invariant |buffer| < PageSize
      invariant AllFull(batches, PageSize)
      invariant completed ==> Convert(cursor) == Resume(Flatten(batches) + buffer, Convert(cursor[i..]))
      invariant !completed ==> Convert(cursor) == Scan(Flatten(batches) + buffer, false)
      decreases |cursor| - i, completed
    {
      var report := cursor[i];
      ConvertUnfold(cursor, i);
      if !Convertible(report) {
        // `get(1)` or `value()` throws; try-with-resources closes the cursor.
        completed := false;
      } else {
        var point := ToSeaTemperature(report);
        ResumeAfterTake(Flatten(batches) + buffer, point, Convert(cursor[i + 1..]));
        batches, buffer := Collect(batches, buffer, point, PageSize);
        i := i + 1;
      }
    }
    if completed {
      assert cursor[i..] == [];
      assert Flatten(batches) + buffer + [] == Flatten(batches) + buffer;
    }
    FullChunksOfFullBatches(batches, buffer, PageSize);
  }

  /** One step of `Convert` at position `i`. */
  lemma ConvertUnfold(cursor: seq<WeatherReport>, i: nat)
    requires i < |cursor|
    ensures Convert(cursor[i..]) ==
      if !Convertible(cursor[i]) then Scan([], false)
      else Scan([ToSeaTemperature(cursor[i])] + Convert(cursor[i + 1..]).points, Convert(cursor[i + 1..]).completed)
  {
    assert cursor[i..][0] == cursor[i] && cursor[i..][1..] == cursor[i + 1..];
  }

  /** When every record converts, the pass completes. */
  lemma {:induction false} ConvertAll(cursor: seq<WeatherReport>)
    requires forall k :: 0 <= k < |cursor| ==> Convertible(cursor[k])
    ensures Convert(cursor).completed && Convert(cursor).points == Points(cursor)
  {
    if cursor != [] {
      assert forall k :: 0 <= k < |cursor[1..]| ==> cursor[1..][k] == cursor[k + 1];
      ConvertAll(cursor[1..]);
    }
  }

  /**
   * `streamSeaTemperatures`: the conjunction of the filter list is the query
   * sent to the store; the cursor stands for its result in storage order.
   */
  method StreamSeaTemperatures(from: Option<Instant>, to: Option<Instant>,
                               longitude: Option<real>, latitude: Option<real>, metersRadius: Option<real>,
                               cursor: seq<WeatherReport>)
    returns (query: Filter, batches: seq<seq<SeaTemperature>>, completed: bool)
    ensures query.And? && DescribesStreamFilters(query.clauses, from, to, longitude, latitude, metersRadius)
    ensures completed == Convert(cursor).completed
    ensures batches == FullChunks(Convert(cursor).points, PageSize)
  {
    var filters := StreamFilters(from, to, longitude, latitude, metersRadius);
    query := And(filters);
    batches, completed := StreamBatches(cursor);
  }

  /**
   * What the stream delivers: floor(n / 10) batches of exactly 10 points; the
   * last `n mod 10` converted points are never delivered; and, when the
   * cursor is read to the end, the delivered points are the first records'
   * points, in cursor order.
   */
  lemma StreamDeliversOnlyFullBatches(cursor: seq<WeatherReport>)
    ensures var ps := Convert(cursor).points;
      var bs := FullChunks(ps, PageSize);
      && AllFull(bs, PageSize)
      && |bs| == |ps| / PageSize
      && Flatten(bs) == ps[..|ps| - |ps| % PageSize]
      && |ps| - |Flatten(bs)| == |ps| % PageSize
    ensures Convert(cursor).completed ==>
      (forall k :: 0 <= k < |cursor| ==> Convertible(cursor[k]))
      && Flatten(FullChunks(Convert(cursor).points, PageSize)) == Points(cursor)[..|cursor| - |cursor| % PageSize]
  {
    var ps := Convert(cursor).points;
    FullChunksShape(ps, PageSize);
    if Convert(cursor).completed {
      ConvertMeaning(cursor);
      ConvertAll(cursor);
    }
  }
}
