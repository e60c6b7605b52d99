/**
 * The analysis pipeline of streamlit_app.py: the log is sorted by time first,
 * and the distance column, the headline figures and the stoppages are
 * computed on the sorted log, with fixed thresholds of 2 km/h and 2 minutes
 * and the stops ordered by start time. The signal mapping is computed too,
 * but the script does not use its result further.
 */
module StreamlitApp {
  import opened Wrappers
  import opened Aggregates
  import opened Sorting
  import opened Telemetry
  import opened Distance
  import opened Segmentation
  import opened Stoppage
  import opened SignalMap
  import opened TripStats

  /** `stop_thresh`, in km/h. */
  const StopThreshold: real := 2.0

  /** `min_dur_min`, in minutes. */
  const MinDuration: real := 2.0

  /** The headline figures: the `cum_dist_km` column and the speeds and times of the sorted log. */
  function TripFigures(data: LocoData): (f: Option<Figures>)
    ensures f.Some? <==> |data.points| > 0
  {
    SortedRowsAreRows(data);
    Stats(Sorted(data).points, StreamlitCumDistKm(Sorted(data)))
  }

  /** The duration runs from the first row of the sorted log to its last, and
    * the mean speed is at most the maximum. */
  lemma TripFiguresBounds(data: LocoData)
    requires |data.points| > 0
    ensures var f, rows := TripFigures(data).value, Sorted(data).points;
      && f.durationHours == (rows[|rows| - 1].time - rows[0].time) as real / 3600.0
      && f.durationHours >= 0.0
      && f.avgSpeed <= f.maxSpeed
  {
    var d := Sorted(data);
    SortedRowsAreRows(data);
    var km := StreamlitCumDistKm(d);
    StatsBounds(d.points, km);
    OrderedDuration(d.points, km);
  }

  /** With no negative increment in the log, the total distance is the last
    * entry of `cum_dist_km`; without the increment column it is 0. */
  lemma TripDistance(data: LocoData)
    requires |data.points| > 0
    ensures data.hasIncrements && NonNegative(Increments(data.points)) ==>
      TripFigures(data).value.distKm == StreamlitCumDistKm(Sorted(data))[|data.points| - 1]
    ensures !data.hasIncrements ==> TripFigures(data).value.distKm == 0.0
  {
    var d := Sorted(data);
    SortedRowsAreRows(data);
    if data.hasIncrements && NonNegative(Increments(data.points)) {
      forall i | 0 <= i < |d.points| ensures StreamlitIncrements(d)[i] >= 0.0 {
        var j :| 0 <= j < |data.points| && data.points[j] == d.points[i];
        assert Increments(data.points)[j] >= 0.0;
      }
      StreamlitTotalIsLast(d);
    }
    if !data.hasIncrements {
      StreamlitTotalFallback(d);
    }
  }

  /** `valid_stops`: the stops of the sorted log lasting at least two minutes, earliest first. */
  function ValidStops(data: LocoData): (v: seq<Stop>)
    ensures forall s :: s in v ==> s.durationMin >= 2.0
  {
    SortByKeepsMembers(LongEnough(Stops(Sorted(data).points, StopThreshold), MinDuration), ByStart);
    SortBy(LongEnough(Stops(Sorted(data).points, StopThreshold), MinDuration), ByStart)
  }

  /** A stop is listed exactly when it lasts at least two minutes (bound
    * included), and as often as the stop table holds it. */
  lemma ValidStopsKept(data: LocoData)
    ensures var v, stops := ValidStops(data), Stops(Sorted(data).points, StopThreshold);
      && (forall s :: s in v <==> s in stops && s.durationMin >= 2.0)
      && (forall s :: multiset(v)[s] == if s.durationMin >= 2.0 then multiset(stops)[s] else 0)
  {
    var stops := Stops(Sorted(data).points, StopThreshold);
    SortByKeepsMembers(LongEnough(stops, MinDuration), ByStart);
    LongEnoughCounts(stops, MinDuration);
  }

  /** The listed stops come in order of start time. */
  lemma ValidStopsByStart(data: LocoData)
    ensures var v := ValidStops(data);
      forall i, j :: 0 <= i < j < |v| ==> v[i].start <= v[j].start
  {
    var v := ValidStops(data);
    forall i, j | 0 <= i < j < |v| ensures v[i].start <= v[j].start {
      assert ByStart(v[i]) <= ByStart(v[j]);
    }
  }

  /** Every listed stop is the stop of a maximal run of the sorted log slower
    * than 2 km/h, from the run's first row to its last, and lasts
    * (End - Start) / 60 >= 2 minutes. */
  lemma ValidStopIsStoppedRun(data: LocoData, s: Stop) returns (k: nat)
    requires s in ValidStops(data)
    ensures k < |StopRuns(Sorted(data).points, StopThreshold)| && Stops(Sorted(data).points, StopThreshold)[k] == s
    ensures StopOfRun(Sorted(data).points, 2.0, StopRuns(Sorted(data).points, StopThreshold)[k], s)
    ensures s.durationMin >= 2.0
  {
    var rows := Sorted(data).points;
    SortByKeepsMembers(LongEnough(Stops(rows, StopThreshold), MinDuration), ByStart);
    k := KeptStopOfOrderedRun(rows, StopThreshold, MinDuration, s);
  }

  /** `mapped_sigs`: computed only when both reference tables are uploaded. */
  function MappedSignals(signals: Option<seq<SignalRow>>, master: Option<seq<MasterRow>>): (mapped: seq<MergedRow>)
    ensures signals.None? || master.None? ==> mapped == []
    ensures signals.Some? && master.Some? ==> mapped == StreamlitMapped(signals.value, master.value)
  {
    if signals.Some? && master.Some? then StreamlitMapped(signals.value, master.value) else []
  }

  /** The number of stoppages in the report, `len(stoppages)`: one for every
    * stopped group of the sorted log lasting at least two minutes. */
  function StoppageCount(data: LocoData): (n: nat)
    ensures var stops := Stops(Sorted(data).points, StopThreshold);
      n == |LongIndices(stops, 2.0)|
  {
    LongEnoughCount(Stops(Sorted(data).points, StopThreshold), MinDuration);
    |ValidStops(data)|
  }

  /** Five rows a minute apart with speeds 50, 1, 1, 1, 60. */
  function Scenario(lat: real, lon: real): (points: seq<Point>)
    ensures |points| == 5 && TimeOrdered(points)
    ensures forall i, j :: 0 <= i < j < |points| ==> points[i].time < points[j].time
  {
    [Point(0, lat, lon, 50.0, 0.0, None), Point(60, lat, lon, 1.0, 0.0, None),
     Point(120, lat, lon, 1.0, 0.0, None), Point(180, lat, lon, 1.0, 0.0, None),
     Point(240, lat, lon, 60.0, 0.0, None)]
  }

  /** In the scenario the three slow rows form a stop run. */
  lemma ScenarioSlowRun(lat: real, lon: real) returns (k: nat)
    ensures k < |StopRuns(Scenario(lat, lon), StopThreshold)|
    ensures StopRuns(Scenario(lat, lon), StopThreshold)[k] == Run(1, 4)
  {
    var points := Scenario(lat, lon);
    var rs := StopRuns(points, StopThreshold);
    StoppedRowIsInAStop(points, StopThreshold, 1);
    k :| 0 <= k < |rs| && InRun(rs[k], 1);
    StopRunIsMaximal(points, StopThreshold, k);
  }

  /** In the scenario the three slow rows form the only stop run. */
  lemma ScenarioSingleRun(lat: real, lon: real)
    ensures StopRuns(Scenario(lat, lon), StopThreshold) == [Run(1, 4)]
  {
    var points := Scenario(lat, lon);
    var rs := StopRuns(points, StopThreshold);
    var k := ScenarioSlowRun(lat, lon);
    StopRunAllStopped(points, StopThreshold, 0);
    StopRunAllStopped(points, StopThreshold, |rs| - 1);
    assert points[0].speed == 50.0 && points[4].speed == 60.0;
    assert k == 0 && k == |rs| - 1;
  }

  /** The scenario's stop table holds one stop, from the second row to the
    * fourth: it lasts two minutes, the span from its first to its last row
    * (the three slow rows cover three minutes of logging, but `Duration_min`
    * is End - Start). */
  lemma ScenarioStops(lat: real, lon: real)
    ensures var stops := Stops(Scenario(lat, lon), StopThreshold);
      |stops| == 1 && stops[0].start == 60 && stops[0].end == 180 && stops[0].durationMin == 2.0
  {
    var points := Scenario(lat, lon);
    ScenarioSingleRun(lat, lon);
    StopBounds(points, StopThreshold, 0);
  }

  /** The scenario as an uploaded log, without increment or station columns. */
  function ScenarioData(lat: real, lon: real): (data: LocoData)
    ensures data.points == Scenario(lat, lon)
  {
    LocoData(Scenario(lat, lon), false, false)
  }

  /** Uploaded, the scenario lists its single stop, as the two-minute bound is
    * inclusive, and the report counts one stoppage. */
  lemma ScenarioSingleStop(lat: real, lon: real)
    ensures var v := ValidStops(ScenarioData(lat, lon));
      |v| == 1 && v[0].start == 60 && v[0].end == 180 && v[0].durationMin == 2.0
    ensures StoppageCount(ScenarioData(lat, lon)) == 1
  {
    var data := ScenarioData(lat, lon);
    SortByTimeOfOrdered(data.points);
    assert Sorted(data).points == Scenario(lat, lon);
    ScenarioStops(lat, lon);
    SingleStopKept(Stops(Scenario(lat, lon), StopThreshold));
  }

  /** A lone stop of at least two minutes is the whole list. */
  lemma SingleStopKept(stops: seq<Stop>)
    requires |stops| == 1 && stops[0].durationMin >= MinDuration
    ensures SortBy(LongEnough(stops, MinDuration), ByStart) == stops
  {
    assert stops == [stops[0]];
    assert LongEnough(stops, MinDuration) == stops;
    SortBySingleton(stops[0], ByStart);
  }
}
