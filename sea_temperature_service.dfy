/**
 * The sea-temperature service: it reads weather reports one at a time from
 * the data-access stream, skips those without a sea-surface temperature,
 * keeps only the first report at each (longitude, latitude), and hands the
 * resulting points to the consumer in batches of `BatchSize`, flushing a
 * non-empty remainder at the end.
 *
 * `Accept` is the specification of one pass over the reports;
 * `StreamSeaTemperatures` is the callback loop, proved against it;
 * `Reference` is an independent statement of the same pass as
 * filter, then map, then de-duplicate, and `AcceptIsReference` ties the two.
 */
module SeaTemperatureService {
  import opened Records
  import opened Batching

  /** `SeaTemperatureService.batch_size`. */
  const BatchSize: nat := 10

  type Key = (real, real)

  // ---- the pass over the reports, as the callback performs it -------------

  /**
   * The points the callback accepts from `reports`, given the coordinates
   * already `seen`. A report without a temperature is skipped before anything
   * else is read; reading the coordinates of a report that has fewer than two
   * throws, which ends the stream.
   */
  function Accept(reports: seq<WeatherReport>, seen: set<Key>): (s: Scan)
    ensures |s.points| <= |reports|
    ensures forall p :: p in s.points ==> CoordinateKey(p) !in seen
    decreases |reports|
  {
    if reports == [] then Scan([], true)
    else
      var r := reports[0];
      if r.seaSurfaceTemperature.None? then Accept(reports[1..], seen)
      else if |r.position.coordinates| < 2 then Scan([], false)
      else
        var p := ToSeaTemperature(r);
        if CoordinateKey(p) in seen then Accept(reports[1..], seen)
        else
          var rest := Accept(reports[1..], seen + {CoordinateKey(p)});
          Scan([p] + rest.points, rest.completed)
  }

  /**
   * `streamSeaTemperatures`: the reports stand for what the data-access stream
   * delivers to the callback for `boundingBox`. It returns the batches handed to
   * the consumer, and whether the pass ended normally (`completed`); when it
   * did not, the exception ends the stream and the final flush is not reached.
   */
  method StreamSeaTemperatures(boundingBox: BoundingBox, reports: seq<WeatherReport>)
    returns (batches: seq<seq<SeaTemperature>>, completed: bool)
    ensures var scan := Accept(reports, {});
      && completed == scan.completed
      && batches == (if completed then Chunks(scan.points, BatchSize) else FullChunks(scan.points, BatchSize))
  {
    var buffer: seq<SeaTemperature> := [];
    var seen: set<Key> := {};
    batches := [];
    completed := true;
    var i := 0;
    while i < |reports| && completed
      invariant 0 <= i <= |reports|
      invariant |buffer| < BatchSize
      invariant AllFull(batches, BatchSize)
      invariant completed ==> Accept(reports, {}) == Resume(Flatten(batches) + buffer, Accept(reports[i..], seen))
      invariant !completed ==> Accept(reports, {}) == Scan(Flatten(batches) + buffer, false)
      decreases |reports| - i, completed
    {
      var r := reports[i];
      AcceptUnfold(reports, i, seen);
      if r.seaSurfaceTemperature.None? {
        // Skip reports without sea surface temperature.
        i := i + 1;
      } else if |r.position.coordinates| < 2 {
        // `coordinates().get(1)` throws: the stream ends here.
        completed := false;
      } else {
        var p := ToSeaTemperature(r);
        var key := CoordinateKey(p);
        if key in seen {
          // Skip duplicate coordinates.
          i := i + 1;
        } else {
          seen := seen + {key};
          ResumeAfterTake(Flatten(batches) + buffer, p, Accept(reports[i + 1..], seen));
          batches, buffer := Collect(batches, buffer, p, BatchSize);
          i := i + 1;
        }
      }
    }
    if completed {
      assert reports[i..] == [];
      assert Flatten(batches) + buffer + [] == Flatten(batches) + buffer;
      ChunksOfFullBatches(batches, buffer, BatchSize);
      if buffer != [] {
        batches := batches + [buffer];
      }
    } else {
      FullChunksOfFullBatches(batches, buffer, BatchSize);
    }
  }

  /** One step of `Accept` at position `i`, in the terms the loop uses. */
  lemma AcceptUnfold(reports: seq<WeatherReport>, i: nat, seen: set<Key>)
    requires i < |reports|
    ensures var r := reports[i];
      Accept(reports[i..], seen) ==
        if r.seaSurfaceTemperature.None? then Accept(reports[i + 1..], seen)
        else if |r.position.coordinates| < 2 then Scan([], false)
        else if CoordinateKey(ToSeaTemperature(r)) in seen then Accept(reports[i + 1..], seen)
        else
          var rest := Accept(reports[i + 1..], seen + {CoordinateKey(ToSeaTemperature(r))});
          Scan([ToSeaTemperature(r)] + rest.points, rest.completed)
  {
    assert reports[i..][0] == reports[i] && reports[i..][1..] == reports[i + 1..];
  }

  // ---- the same pass, stated as filter, map and de-duplicate --------------

  /** A report the callback reads without a fault. */
  predicate Readable(r: WeatherReport)
  {
    r.seaSurfaceTemperature.None? || |r.position.coordinates| >= 2
  }

  /** How many reports the callback gets through before one throws. */
  function ReadablePrefix(reports: seq<WeatherReport>): (k: nat)
    ensures k <= |reports|
    ensures forall i :: 0 <= i < k ==> Readable(reports[i])
    ensures k < |reports| ==> !Readable(reports[k])
  {
    if reports == [] || !Readable(reports[0]) then 0 else 1 + ReadablePrefix(reports[1..])
  }

  /** The reports that carry a sea-surface temperature, in order. */
  function WithTemperature(reports: seq<WeatherReport>): (r: seq<WeatherReport>)
    ensures forall i :: 0 <= i < |r| ==> r[i] in reports && r[i].seaSurfaceTemperature.Some?
  {
    if reports == [] then []
    else if reports[0].seaSurfaceTemperature.Some? then [reports[0]] + WithTemperature(reports[1..])
    else WithTemperature(reports[1..])
  }

  /** First-wins de-duplication by coordinate, given the coordinates already seen. */
  function Dedup(ps: seq<SeaTemperature>, seen: set<Key>): (d: seq<SeaTemperature>)
    ensures |d| <= |ps|
    ensures forall p :: p in d ==> CoordinateKey(p) !in seen
  {
    if ps == [] then []
    else if CoordinateKey(ps[0]) in seen then Dedup(ps[1..], seen)
    else [ps[0]] + Dedup(ps[1..], seen + {CoordinateKey(ps[0])})
  }

  /** The readable prefix's temperature reports, as points. */
  function PointsBeforeFault(reports: seq<WeatherReport>): seq<SeaTemperature>
  {
    var k := ReadablePrefix(reports);
    var rs := WithTemperature(reports[..k]);
    assert forall i :: 0 <= i < |rs| ==> Convertible(rs[i]) by {
      forall i | 0 <= i < |rs| ensures Convertible(rs[i]) {
        assert rs[i] in reports[..k];
      }
    }
    Points(rs)
  }

  /** The pass as a pipeline: read up to the first fault, filter, map, de-duplicate. */
  function Reference(reports: seq<WeatherReport>, seen: set<Key>): Scan
  {
    Scan(Dedup(PointsBeforeFault(reports), seen), ReadablePrefix(reports) == |reports|)
  }

  lemma {:induction false} AcceptIsReference(reports: seq<WeatherReport>, seen: set<Key>)
    ensures Accept(reports, seen) == Reference(reports, seen)
    decreases |reports|
  {
    if reports != [] {
      var r := reports[0];
      var k := ReadablePrefix(reports);
      if Readable(r) {
        AcceptIsReference(reports[1..], seen);
        if r.seaSurfaceTemperature.Some? {
          AcceptIsReference(reports[1..], seen + {CoordinateKey(ToSeaTemperature(r))});
        }
        assert reports[..k] == [r] + reports[1..][..k - 1];
        assert reports[..k][1..] == reports[1..][..k - 1];
      } else {
        assert k == 0 && reports[..k] == [];
      }
    }
  }

  // ---- properties of de-duplication ------------------------------------------

  /** Every de-duplicated point comes from the input, at a coordinate not seen before. */
  lemma {:induction false} DedupSound(ps: seq<SeaTemperature>, seen: set<Key>)
    ensures forall p :: p in Dedup(ps, seen) ==> p in ps && CoordinateKey(p) !in seen
  {
    if ps != [] {
      var key0 := CoordinateKey(ps[0]);
      var seen' := if key0 in seen then seen else seen + {key0};
      DedupSound(ps[1..], seen');
      var d := Dedup(ps, seen);
      var d' := Dedup(ps[1..], seen');
      assert forall x :: x in ps[1..] ==> x in ps;
      if key0 !in seen {
        assert d == [ps[0]] + d';
      }
    }
  }

  /** No two points of `ps` share a coordinate pair. */
  predicate UniqueCoordinates(ps: seq<SeaTemperature>)
  {
    forall i, j :: 0 <= i < j < |ps| ==> CoordinateKey(ps[i]) != CoordinateKey(ps[j])
  }

  /** No two de-duplicated points share a coordinate pair. */
  lemma {:induction false} DedupUnique(ps: seq<SeaTemperature>, seen: set<Key>)
    ensures UniqueCoordinates(Dedup(ps, seen))
  {
    if ps != [] && CoordinateKey(ps[0]) in seen {
      DedupUnique(ps[1..], seen);
      assert Dedup(ps, seen) == Dedup(ps[1..], seen);
    } else if ps != [] {
      var seen' := seen + {CoordinateKey(ps[0])};
      DedupUnique(ps[1..], seen');
      DedupSound(ps[1..], seen');
      var d, d' := Dedup(ps, seen), Dedup(ps[1..], seen');
      assert d == [ps[0]] + d';
      forall i, j | 0 <= i < j < |d| ensures CoordinateKey(d[i]) != CoordinateKey(d[j]) {
        if i == 0 {
          assert d'[j - 1] in d';
          assert CoordinateKey(d'[j - 1]) !in seen';
        } else {
          assert CoordinateKey(d'[i - 1]) != CoordinateKey(d'[j - 1]);
        }
      }
    }
  }

  /**
   * First occurrence wins: when `ps[j]` is the first point at its coordinate
   * and that coordinate was not seen before, `ps[j]` is kept, and it is the
   * only kept point at that coordinate.
   */
  lemma {:induction false} DedupKeepsFirst(ps: seq<SeaTemperature>, seen: set<Key>, j: nat)
    requires j < |ps| && CoordinateKey(ps[j]) !in seen
    requires forall i :: 0 <= i < j ==> CoordinateKey(ps[i]) != CoordinateKey(ps[j])
    ensures ps[j] in Dedup(ps, seen)
    ensures forall p :: p in Dedup(ps, seen) && CoordinateKey(p) == CoordinateKey(ps[j]) ==> p == ps[j]
  {
    var d := Dedup(ps, seen);
    DedupUnique(ps, seen);
    assert UniqueCoordinates(d);
    if j == 0 {
      assert d[0] == ps[0];
    } else {
      var key0 := CoordinateKey(ps[0]);
      var seen' := if key0 in seen then seen else seen + {key0};
      assert CoordinateKey(ps[1..][j - 1]) !in seen';
      DedupKeepsFirst(ps[1..], seen', j - 1);
    }
    assert ps[j] in d;
    forall p | p in d && CoordinateKey(p) == CoordinateKey(ps[j]) ensures p == ps[j] {
      var a :| 0 <= a < |d| && d[a] == p;
      var b :| 0 <= b < |d| && d[b] == ps[j];
      assert a == b;
    }
  }

  /** Every input coordinate not seen before is represented in the output. */
  lemma {:induction false} DedupComplete(ps: seq<SeaTemperature>, seen: set<Key>, j: nat)
    requires j < |ps| && CoordinateKey(ps[j]) !in seen
    ensures exists p :: p in Dedup(ps, seen) && CoordinateKey(p) == CoordinateKey(ps[j])
  {
    FirstAtKey(ps, j);
    var k :| 0 <= k <= j && CoordinateKey(ps[k]) == CoordinateKey(ps[j]) && FirstAt(ps, k);
    DedupKeepsFirst(ps, seen, k);
  }

  /** No point before position `k` shares the coordinate of `ps[k]`. */
  predicate FirstAt(ps: seq<SeaTemperature>, k: nat)
    requires k < |ps|
  {
    forall i :: 0 <= i < k ==> CoordinateKey(ps[i]) != CoordinateKey(ps[k])
  }

  lemma FirstAtKey(ps: seq<SeaTemperature>, j: nat)
    requires j < |ps|
    ensures exists k :: 0 <= k <= j && CoordinateKey(ps[k]) == CoordinateKey(ps[j]) && FirstAt(ps, k)
  {
    var k := 0;
    while CoordinateKey(ps[k]) != CoordinateKey(ps[j])
      invariant 0 <= k <= j
      invariant forall i :: 0 <= i < k ==> CoordinateKey(ps[i]) != CoordinateKey(ps[j])
      decreases j - k
    {
      k := k + 1;
    }
  }

  /** `a` is `b` with some elements left out, the rest in their order. */
  predicate Subsequence<T(==)>(a: seq<T>, b: seq<T>)
    decreases |b|
  {
    if a == [] then true
    else if b == [] then false
    else (a[0] == b[0] && Subsequence(a[1..], b[1..])) || Subsequence(a, b[1..])
  }

  /** De-duplication keeps the source order. */
  lemma {:induction false} DedupInOrder(ps: seq<SeaTemperature>, seen: set<Key>)
    ensures Subsequence(Dedup(ps, seen), ps)
  {
    if ps != [] {
      var key0 := CoordinateKey(ps[0]);
      if key0 in seen {
        DedupInOrder(ps[1..], seen);
        var d := Dedup(ps, seen);
        assert d == [] || Subsequence(d, ps[1..]);
      } else {
        DedupInOrder(ps[1..], seen + {key0});
      }
    }
  }

  // ---- what the service delivers -----------------------------------------------

  /** A report without a temperature changes nothing: not the points, not the seen set. */
  lemma {:induction false} NoTemperatureIgnored(xs: seq<WeatherReport>, r: WeatherReport, ys: seq<WeatherReport>, seen: set<Key>)
    requires r.seaSurfaceTemperature.None?
    ensures Accept(xs + [r] + ys, seen) == Accept(xs + ys, seen)
    decreases |xs|
  {
    if xs == [] {
      assert xs + [r] + ys == [r] + ys && ([r] + ys)[1..] == ys && xs + ys == ys;
    } else {
      var x := xs[0];
      assert (xs + [r] + ys)[0] == x && (xs + [r] + ys)[1..] == xs[1..] + [r] + ys;
      assert (xs + ys)[0] == x && (xs + ys)[1..] == xs[1..] + ys;
      NoTemperatureIgnored(xs[1..], r, ys, seen);
      if Convertible(x) {
        NoTemperatureIgnored(xs[1..], r, ys, seen + {CoordinateKey(ToSeaTemperature(x))});
      }
    }
  }

  /** No two points the service delivers share a coordinate pair. */
  lemma DeliveredCoordinatesUnique(reports: seq<WeatherReport>)
    ensures UniqueCoordinates(Accept(reports, {}).points)
  {
    AcceptIsReference(reports, {});
    DedupUnique(PointsBeforeFault(reports), {});
  }

  /**
   * Completeness with first-wins: on a pass that ran to the end, the first
   * report with a temperature at any coordinate is delivered, and it is the
   * only delivered point at that coordinate.
   */
  lemma {:induction false} DeliversFirstReportAtEachCoordinate(reports: seq<WeatherReport>, j: nat)
    requires Accept(reports, {}).completed
    requires j < |reports| && Convertible(reports[j])
    requires forall i :: 0 <= i < j && Convertible(reports[i]) ==>
      CoordinateKey(ToSeaTemperature(reports[i])) != CoordinateKey(ToSeaTemperature(reports[j]))
    ensures var ps := Accept(reports, {}).points;
      ToSeaTemperature(reports[j]) in ps
      && forall p :: p in ps && CoordinateKey(p) == CoordinateKey(ToSeaTemperature(reports[j])) ==> p == ToSeaTemperature(reports[j])
  {
    CompletedPoints(reports);
    var rs := WithTemperature(reports);
    var m := WithTemperatureIndex(reports, j);
    var all := Points(rs);
    assert all[m] == ToSeaTemperature(reports[j]);
    forall i | 0 <= i < m ensures CoordinateKey(all[i]) != CoordinateKey(all[m]) {
      var a := WithTemperatureSource(reports, i, m, j);
      assert all[i] == ToSeaTemperature(reports[a]);
    }
    DedupKeepsFirst(all, {}, m);
  }

  /** Soundness: every delivered point is the point of some report that has a temperature. */
  lemma {:induction false} DeliveredPointsComeFromReports(reports: seq<WeatherReport>)
    ensures forall p :: p in Accept(reports, {}).points ==>
      exists i :: 0 <= i < |reports| && Convertible(reports[i]) && p == ToSeaTemperature(reports[i])
  {
    AcceptIsReference(reports, {});
    var k := ReadablePrefix(reports);
    var rs := WithTemperature(reports[..k]);
    var all := PointsBeforeFault(reports);
    DedupSound(all, {});
    forall p | p in Accept(reports, {}).points
      ensures exists i :: 0 <= i < |reports| && Convertible(reports[i]) && p == ToSeaTemperature(reports[i])
    {
      var m :| 0 <= m < |all| && all[m] == p;
      assert rs[m] in reports[..k];
      var i :| 0 <= i < k && reports[..k][i] == rs[m];
      assert reports[i] == rs[m];
    }
  }

  /**
   * Completeness: on a pass that runs to the end, every coordinate that
   * carries a temperature in some report is delivered.
   */
  lemma {:induction false} DeliversEveryCoordinate(reports: seq<WeatherReport>, j: nat)
    requires Accept(reports, {}).completed
    requires j < |reports| && Convertible(reports[j])
    ensures exists p :: p in Accept(reports, {}).points && CoordinateKey(p) == CoordinateKey(ToSeaTemperature(reports[j]))
  {
    CompletedPoints(reports);
    var m := WithTemperatureIndex(reports, j);
    DedupComplete(Points(WithTemperature(reports)), {}, m);
  }

  /** On a pass that runs to the end, every temperature report becomes a point before de-duplication. */
  lemma CompletedPoints(reports: seq<WeatherReport>)
    requires Accept(reports, {}).completed
    ensures forall i :: 0 <= i < |WithTemperature(reports)| ==> Convertible(WithTemperature(reports)[i])
    ensures Accept(reports, {}).points == Dedup(Points(WithTemperature(reports)), {})
  {
    AcceptIsReference(reports, {});
    assert ReadablePrefix(reports) == |reports|;
    assert reports[..|reports|] == reports;
  }

  /** Where the `j`-th report lands in `WithTemperature`. */
  lemma {:induction false} WithTemperatureIndex(reports: seq<WeatherReport>, j: nat) returns (m: nat)
    requires j < |reports| && reports[j].seaSurfaceTemperature.Some?
    ensures m < |WithTemperature(reports)| && WithTemperature(reports)[m] == reports[j]
    ensures m == |WithTemperature(reports[..j])|
  {
    if j == 0 {
      m := 0;
      assert reports[..j] == [];
    } else {
      var m' := WithTemperatureIndex(reports[1..], j - 1);
      assert reports[1..][..j - 1] == reports[..j][1..];
      m := if reports[0].seaSurfaceTemperature.Some? then m' + 1 else m';
    }
  }

  /** An element of `WithTemperature` before position `m` (which is report `j`) comes from a report before `j`. */
  lemma {:induction false} WithTemperatureSource(reports: seq<WeatherReport>, i: nat, m: nat, j: nat) returns (a: nat)
    requires j < |reports| && reports[j].seaSurfaceTemperature.Some?
    requires m == |WithTemperature(reports[..j])| && i < m
    ensures a < j && i < |WithTemperature(reports)| && WithTemperature(reports)[i] == reports[a]
  {
    assert reports[0] == reports[..j][0];
    if reports[0].seaSurfaceTemperature.Some? && i == 0 {
      a := 0;
    } else {
      assert reports[1..][..j - 1] == reports[..j][1..];
      var i' := if reports[0].seaSurfaceTemperature.Some? then i - 1 else i;
      var a' := WithTemperatureSource(reports[1..], i', m - (i - i'), j - 1);
      a := a' + 1;
    }
  }

  /** Delivered points keep the order of the reports they come from. */
  lemma DeliveredInSourceOrder(reports: seq<WeatherReport>)
    ensures Subsequence(Accept(reports, {}).points, PointsBeforeFault(reports))
  {
    AcceptIsReference(reports, {});
    DedupInOrder(PointsBeforeFault(reports), {});
  }

  /**
   * The shape of the service's output on a pass that runs to the end: the
   * batches concatenate to the accepted points, each holds 1 to `BatchSize`
   * points and all but the last exactly `BatchSize`, there are
   * ceil(n / BatchSize) of them, and with at least `BatchSize` points the
   * first batch is full.
   */
  lemma ServiceBatchShape(reports: seq<WeatherReport>)
    requires Accept(reports, {}).completed
    ensures var ps := Accept(reports, {}).points;
      var bs := Chunks(ps, BatchSize);
      && Flatten(bs) == ps
      && (bs == [] <==> ps == [])
      && (forall k :: 0 <= k < |bs| ==> 1 <= |bs[k]| <= BatchSize)
      && (forall k :: 0 <= k < |bs| - 1 ==> |bs[k]| == BatchSize)
      && |bs| == (|ps| + BatchSize - 1) / BatchSize
      && (|ps| >= BatchSize ==> |bs[0]| == BatchSize)
  {
    var ps := Accept(reports, {}).points;
    ChunksFlatten(ps, BatchSize);
    ChunksSizes(ps, BatchSize);
    ChunksCount(ps, BatchSize);
    if |ps| >= BatchSize {
      FirstChunkFull(ps, BatchSize);
    }
  }
}
