/**
 * The headline figures of a trip: total distance (the largest cumulative
 * distance), mean and maximum speed, and the time between the first and last
 * row in hours. On an empty table pandas yields NaN for all four; the model
 * yields no figures.
 */
module TripStats {
  import opened Wrappers
  import opened Aggregates
  import opened Telemetry
  import opened Distance

  datatype Figures = Figures(distKm: real, avgSpeed: real, maxSpeed: real, durationHours: real)

  /** `Distance_km.max()`, `Speed.mean()`, `Speed.max()` and
    * `(time.max() - time.min()).total_seconds() / 3600`. */
  function Stats(points: seq<Point>, km: seq<real>): (f: Option<Figures>)
    requires |km| == |points|
    ensures f.Some? <==> |points| > 0
  {
    if |points| == 0 then None
    else
      var ts := Times(points);
      Some(Figures(Max(km), Mean(Speeds(points)), Max(Speeds(points)), (MaxInt(ts) - MinInt(ts)) as real / 3600.0))
  }

  /** The duration is never negative, the mean speed never exceeds the maximum,
    * which is the speed of some row and at least every row's speed, and the
    * total distance is the largest cumulative distance. */
  lemma StatsBounds(points: seq<Point>, km: seq<real>)
    requires |km| == |points| && |points| > 0
    ensures var f := Stats(points, km).value;
      && f.durationHours >= 0.0
      && f.avgSpeed <= f.maxSpeed
      && (exists i :: 0 <= i < |points| && points[i].speed == f.maxSpeed)
      && (forall i :: 0 <= i < |points| ==> points[i].speed <= f.maxSpeed)
      && (exists i :: 0 <= i < |points| && km[i] == f.distKm)
      && (forall i :: 0 <= i < |points| ==> km[i] <= f.distKm)
  {
    var ts := Times(points);
    assert ts[0] == points[0].time;
    MeanAtMostMax(Speeds(points));
  }

  /** On time-ordered rows the duration is the time from the first row to the last. */
  lemma OrderedDuration(points: seq<Point>, km: seq<real>)
    requires |km| == |points| && |points| > 0 && TimeOrdered(points)
    ensures Stats(points, km).value.durationHours == (points[|points| - 1].time - points[0].time) as real / 3600.0
  {
    var ts := Times(points);
    var n := |points|;
    forall i | 0 <= i < n ensures ts[0] <= ts[i] <= ts[n - 1] {
      TimeOrderedPairwise(points, 0, i);
      TimeOrderedPairwise(points, i, n - 1);
    }
    assert MaxInt(ts) == ts[n - 1] && MinInt(ts) == ts[0];
  }

  /** app.py with the increment column and no negative increment: the total
    * distance is the last cumulative distance, the sum of all increments / 1000. */
  lemma AppTotalIsLast(data: LocoData)
    requires data.hasIncrements && |data.points| > 0 && NonNegative(Increments(data.points))
    ensures Stats(data.points, AppDistanceKm(data)).value.distKm ==
      Sum(Increments(data.points)) / 1000.0
  {
    var points := data.points;
    var km := AppDistanceKm(data);
    AppDistanceFromColumn(data);
    MaxOfNonDecreasing(km);
    assert Increments(points)[..|points|] == Increments(points);
  }

  /** app.py without the increment column: the total distance is the placeholder
    * (n - 1) * 0.01 km, whatever the rows hold. */
  lemma AppTotalFallback(data: LocoData)
    requires !data.hasIncrements && |data.points| > 0
    ensures Stats(data.points, AppDistanceKm(data)).value.distKm == (|data.points| - 1) as real * 0.01
  {
    var km := AppDistanceKm(data);
    AppDistanceFallback(data);
    MaxOfNonDecreasing(km);
  }

  /** streamlit_app.py with no negative increment (which the zero fill satisfies):
    * the total distance is the last entry of `cum_dist_km`. */
  lemma StreamlitTotalIsLast(data: LocoData)
    requires |data.points| > 0 && NonNegative(StreamlitIncrements(data))
    ensures Stats(data.points, StreamlitCumDistKm(data)).value.distKm ==
      StreamlitCumDistKm(data)[|data.points| - 1]
  {
    StreamlitCumDistFromColumn(data);
    MaxOfNonDecreasing(StreamlitCumDistKm(data));
  }

  /** streamlit_app.py without the increment column: the total distance is 0. */
  lemma StreamlitTotalFallback(data: LocoData)
    requires !data.hasIncrements && |data.points| > 0
    ensures Stats(data.points, StreamlitCumDistKm(data)).value.distKm == 0.0
  {
    var km := StreamlitCumDistKm(data);
    StreamlitZeroFallback(data);
    StreamlitCumDistFromColumn(data);
    MaxOfNonDecreasing(km);
  }
}
