/**
 * Cumulative distance along the trip, in kilometres, computed from the
 * per-row increment `distFromPrevLatLng` (metres). The two scripts differ only
 * when that column is absent.
 */
module Distance {
  import opened Aggregates
  import opened Telemetry

  /** Running total of increments in metres, converted to kilometres:
    * `increments.cumsum() / 1000`. */
  function CumulativeKm(increments: seq<real>): (km: seq<real>)
    ensures |km| == |increments|
  {
    var total := CumSum(increments);
    seq(|total|, i requires 0 <= i < |total| => total[i] / 1000.0)
  }

  /** Entry i is the sum of increments 0..i divided by 1000. */
  lemma CumulativeKmIsPrefixSum(increments: seq<real>)
    ensures forall i :: 0 <= i < |increments| ==>
      CumulativeKm(increments)[i] == Sum(increments[..i + 1]) / 1000.0
  {
  }

  /** With no negative increment the cumulative distance never decreases. */
  lemma CumulativeKmNonDecreasing(increments: seq<real>)
    requires NonNegative(increments)
    ensures forall i, j :: 0 <= i <= j < |increments| ==>
      CumulativeKm(increments)[i] <= CumulativeKm(increments)[j]
  {
    var km := CumulativeKm(increments);
    forall i, j | 0 <= i <= j < |increments| ensures km[i] <= km[j] {
      SumPrefixMonotone(increments, i + 1, j + 1);
    }
  }

  /** app.py: `Distance_km` is the running total when the column exists, and
    * otherwise the placeholder stride of 0.01 km per row. */
  function AppDistanceKm(data: LocoData): (km: seq<real>)
    ensures |km| == |data.points|
  {
    if data.hasIncrements then CumulativeKm(Increments(data.points))
    else seq(|data.points|, i requires 0 <= i < |data.points| => i as real * 0.01)
  }

  /** With the column present, `Distance_km` is the prefix sum in kilometres and
    * does not decrease when no increment is negative. */
  lemma AppDistanceFromColumn(data: LocoData)
    requires data.hasIncrements
    ensures forall i :: 0 <= i < |data.points| ==>
      AppDistanceKm(data)[i] == Sum(Increments(data.points)[..i + 1]) / 1000.0
    ensures NonNegative(Increments(data.points)) ==>
      forall i, j :: 0 <= i <= j < |data.points| ==> AppDistanceKm(data)[i] <= AppDistanceKm(data)[j]
  {
    if NonNegative(Increments(data.points)) {
      CumulativeKmNonDecreasing(Increments(data.points));
    }
  }

  /** Without the column, `Distance_km` is i * 0.01 whatever the rows hold, so it
    * strictly increases with the row number even when the train stands still. */
  lemma AppDistanceFallback(data: LocoData)
    requires !data.hasIncrements
    ensures forall i :: 0 <= i < |data.points| ==> AppDistanceKm(data)[i] == i as real * 0.01
    ensures forall i, j :: 0 <= i < j < |data.points| ==> AppDistanceKm(data)[i] < AppDistanceKm(data)[j]
  {
  }

  /** streamlit_app.py: a missing increment column is filled with zeros. */
  function StreamlitIncrements(data: LocoData): (inc: seq<real>)
    ensures |inc| == |data.points|
  {
    if data.hasIncrements then Increments(data.points)
    else seq(|data.points|, i requires 0 <= i < |data.points| => 0.0)
  }

  /** streamlit_app.py: `cum_dist_km`. */
  function StreamlitCumDistKm(data: LocoData): (km: seq<real>)
    ensures |km| == |data.points|
  {
    CumulativeKm(StreamlitIncrements(data))
  }

  /** Without the column `cum_dist_km` is identically zero. */
  lemma {:induction false} StreamlitZeroFallback(data: LocoData)
    requires !data.hasIncrements
    ensures forall i :: 0 <= i < |data.points| ==> StreamlitCumDistKm(data)[i] == 0.0
  {
    var inc := StreamlitIncrements(data);
    forall i | 0 <= i < |data.points| ensures StreamlitCumDistKm(data)[i] == 0.0 {
      SumOfZeros(inc[..i + 1]);
    }
  }

  /** `cum_dist_km` is the prefix sum of the increments in kilometres and never
    * decreases when no increment is negative (the zero fill included). */
  lemma StreamlitCumDistFromColumn(data: LocoData)
    ensures forall i :: 0 <= i < |data.points| ==>
      StreamlitCumDistKm(data)[i] == Sum(StreamlitIncrements(data)[..i + 1]) / 1000.0
    ensures NonNegative(StreamlitIncrements(data)) ==>
      forall i, j :: 0 <= i <= j < |data.points| ==> StreamlitCumDistKm(data)[i] <= StreamlitCumDistKm(data)[j]
  {
    if NonNegative(StreamlitIncrements(data)) {
      CumulativeKmNonDecreasing(StreamlitIncrements(data));
    }
  }
}
