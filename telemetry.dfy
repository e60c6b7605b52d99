/**
 * The locomotive telemetry table. Timestamps are already-parsed integer
 * seconds; speeds, coordinates and the per-row distance increment are exact
 * reals. Whether the optional columns exist is a property of the whole table.
 */
module Telemetry {
  import opened Wrappers
  import Sorting

  /** One telemetry row: `Logging Time`, `Latitude`, `Longitude`, `Speed`,
    * `distFromPrevLatLng` (metres since the previous row) and `last/cur stationCode`. */
  datatype Point = Point(
    time: int,
    lat: real,
    lon: real,
    speed: real,
    increment: real,
    station: Option<string>)

  /** The uploaded table; `increment` and `station` are meaningful only when
    * the corresponding column is present. */
  datatype LocoData = LocoData(
    points: seq<Point>,
    hasIncrements: bool,
    hasStationCodes: bool)

  function TimeKey(p: Point): real { p.time as real }

  /** Rows in time order: no row is earlier than the one before it. */
  predicate TimeOrdered(points: seq<Point>)
  {
    forall i, i' :: 0 <= i < |points| && 0 <= i' < |points| && i' == i + 1 ==> points[i].time <= points[i'].time
  }

  /** A slice of time-ordered rows is time-ordered. */
  lemma TimeOrderedSlice(points: seq<Point>, lo: nat, hi: nat)
    requires TimeOrdered(points) && lo <= hi <= |points|
    ensures TimeOrdered(points[lo..hi])
  {
    var rows := points[lo..hi];
    forall i, i' | 0 <= i < |rows| && 0 <= i' < |rows| && i' == i + 1 ensures rows[i].time <= rows[i'].time {
      assert rows[i] == points[lo + i] && rows[i'] == points[lo + i'];
    }
  }

  /** In time-ordered rows every row is no earlier than any row before it. */
  lemma {:induction false} TimeOrderedPairwise(points: seq<Point>, i: nat, j: nat)
    requires TimeOrdered(points) && i <= j < |points|
    ensures points[i].time <= points[j].time
    decreases j - i
  {
    if i < j {
      TimeOrderedPairwise(points, i, j - 1);
    }
  }

  /** `df.sort_values('Logging Time')`: a time-ordered permutation of the rows. */
  function SortByTime(points: seq<Point>): (r: seq<Point>)
    ensures TimeOrdered(r)
    ensures multiset(r) == multiset(points)
  {
    var r := Sorting.SortBy(points, TimeKey);
    assert forall i, i' :: 0 <= i && i' == i + 1 && i' < |r| ==> TimeKey(r[i]) <= TimeKey(r[i']);
    r
  }

  /** The table after the sort that both scripts apply right after loading. */
  function Sorted(data: LocoData): (d: LocoData)
    ensures TimeOrdered(d.points)
    ensures multiset(d.points) == multiset(data.points)
    ensures d.hasIncrements == data.hasIncrements && d.hasStationCodes == data.hasStationCodes
  {
    data.(points := SortByTime(data.points))
  }

  /** Rows whose times strictly increase are left as they are by the sort. */
  lemma SortByTimeOfOrdered(points: seq<Point>)
    requires forall i, j :: 0 <= i < j < |points| ==> points[i].time < points[j].time
    ensures SortByTime(points) == points
  {
    assert Sorting.StrictlySortedBy(points, TimeKey);
    Sorting.SortBySorted(points, TimeKey);
  }

  /** The sorted table has as many rows as the loaded one, and each of its rows is a loaded row. */
  lemma SortedRowsAreRows(data: LocoData)
    ensures |Sorted(data).points| == |data.points|
    ensures forall i :: 0 <= i < |Sorted(data).points| ==> Sorted(data).points[i] in data.points
  {
    var rows := Sorted(data).points;
    assert |multiset(rows)| == |multiset(data.points)|;
    forall i | 0 <= i < |rows| ensures rows[i] in data.points {
      assert rows[i] in multiset(rows);
    }
  }

  function Times(points: seq<Point>): (ts: seq<int>)
    ensures |ts| == |points| && forall i :: 0 <= i < |points| ==> ts[i] == points[i].time
  {
    seq(|points|, i requires 0 <= i < |points| => points[i].time)
  }

  function Speeds(points: seq<Point>): (vs: seq<real>)
    ensures |vs| == |points| && forall i :: 0 <= i < |points| ==> vs[i] == points[i].speed
  {
    seq(|points|, i requires 0 <= i < |points| => points[i].speed)
  }

  function Lats(points: seq<Point>): (ys: seq<real>)
    ensures |ys| == |points| && forall i :: 0 <= i < |points| ==> ys[i] == points[i].lat
  {
    seq(|points|, i requires 0 <= i < |points| => points[i].lat)
  }

  function Lons(points: seq<Point>): (xs: seq<real>)
    ensures |xs| == |points| && forall i :: 0 <= i < |points| ==> xs[i] == points[i].lon
  {
    seq(|points|, i requires 0 <= i < |points| => points[i].lon)
  }

  function Increments(points: seq<Point>): (ds: seq<real>)
    ensures |ds| == |points| && forall i :: 0 <= i < |points| ==> ds[i] == points[i].increment
  {
    seq(|points|, i requires 0 <= i < |points| => points[i].increment)
  }

  function Stations(points: seq<Point>): (cs: seq<Option<string>>)
    ensures |cs| == |points| && forall i :: 0 <= i < |points| ==> cs[i] == points[i].station
  {
    seq(|points|, i requires 0 <= i < |points| => points[i].station)
  }
}
