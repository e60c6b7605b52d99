/**
 * The analysis pipeline of app.py, assembled from the pieces. The log is
 * sorted by time first, and every table below is computed on the sorted log:
 * the distance column and the headline figures, the stops filtered by the
 * minimum duration and ordered longest first, the signal mapping that runs
 * only when both reference tables are uploaded, and the violation rule
 * applied to the signal passes.
 */
module App {
  import opened Wrappers
  import opened Aggregates
  import opened Sorting
  import opened Telemetry
  import opened Distance
  import opened Stoppage
  import opened Stations
  import opened SignalMap
  import opened Proximity
  import opened TripStats

  /** The headline figures: the `Distance_km` column and the speeds and times of the sorted log. */
  function TripFigures(data: LocoData): (f: Option<Figures>)
    ensures f.Some? <==> |data.points| > 0
  {
    SortedRowsAreRows(data);
    Stats(Sorted(data).points, AppDistanceKm(Sorted(data)))
  }

  /** The duration runs from the first row of the sorted log to its last, the
    * mean speed is at most the maximum, and the maximum is the speed of a row. */
  lemma TripFiguresBounds(data: LocoData)
    requires |data.points| > 0
    ensures var f, rows := TripFigures(data).value, Sorted(data).points;
      && f.durationHours == (rows[|rows| - 1].time - rows[0].time) as real / 3600.0
      && f.durationHours >= 0.0
      && f.avgSpeed <= f.maxSpeed
      && (exists i :: 0 <= i < |data.points| && data.points[i].speed == f.maxSpeed)
      && (forall i :: 0 <= i < |data.points| ==> data.points[i].speed <= f.maxSpeed)
  {
    var d := Sorted(data);
    var rows := d.points;
    SortedRowsAreRows(data);
    var km := AppDistanceKm(d);
    StatsBounds(rows, km);
    OrderedDuration(rows, km);
    var f := TripFigures(data).value;
    var j :| 0 <= j < |rows| && rows[j].speed == f.maxSpeed;
    assert rows[j] in data.points;
    forall i | 0 <= i < |data.points| ensures data.points[i].speed <= f.maxSpeed {
      assert data.points[i] in multiset(rows);
    }
  }

  /** With the increment column and no negative increment, the total distance
    * is the sum of all increments / 1000. */
  lemma TripDistanceFromColumn(data: LocoData)
    requires data.hasIncrements && |data.points| > 0 && NonNegative(Increments(data.points))
    ensures TripFigures(data).value.distKm == Sum(Increments(Sorted(data).points)) / 1000.0
  {
    var d := Sorted(data);
    SortedRowsAreRows(data);
    forall i | 0 <= i < |d.points| ensures Increments(d.points)[i] >= 0.0 {
      var j :| 0 <= j < |data.points| && data.points[j] == d.points[i];
      assert Increments(data.points)[j] >= 0.0;
    }
    AppTotalIsLast(d);
  }

  /** Without the increment column, the total distance is (n - 1) * 0.01 km. */
  lemma TripDistanceFallback(data: LocoData)
    requires !data.hasIncrements && |data.points| > 0
    ensures TripFigures(data).value.distKm == (|data.points| - 1) as real * 0.01
  {
    SortedRowsAreRows(data);
    AppTotalFallback(Sorted(data));
  }

  /** `sect_stats`: the section table of the sorted log, when it has station codes. */
  function SectionTable(data: LocoData): (t: Option<seq<Section>>)
    ensures t.Some? <==> data.hasStationCodes
    ensures t.Some? ==> |t.value| == |SectionRuns(Sorted(data).points)|
  {
    Sections(Sorted(data))
  }

  /** Each entry of the section table belongs to a section of the sorted log:
    * all its rows carry the entry's code and lie between its Start and End,
    * and its mean speed is at most its maximum. */
  lemma SectionTableProperties(data: LocoData, k: nat)
    requires data.hasStationCodes && k < |SectionRuns(Sorted(data).points)|
    ensures var s, rows, r := SectionTable(data).value[k], Sorted(data).points, SectionRuns(Sorted(data).points)[k];
      && (forall i :: r.lo <= i < r.hi ==> rows[i].station == Some(s.code))
      && s.start <= s.end
      && (forall i :: r.lo <= i < r.hi ==> s.start <= rows[i].time <= s.end)
      && s.avgSpeed <= s.maxSpeed
  {
    SectionProperties(Sorted(data), k);
  }

  /** `valid_stops`: the stops of the sorted log lasting at least `stopDur` minutes, longest first. */
  function ValidStops(data: LocoData, stopThresh: real, stopDur: int): (v: seq<Stop>)
    ensures forall s :: s in v ==> s.durationMin >= stopDur as real
  {
    SortByKeepsMembers(LongEnough(Stops(Sorted(data).points, stopThresh), stopDur as real), ByDurationDescending);
    SortBy(LongEnough(Stops(Sorted(data).points, stopThresh), stopDur as real), ByDurationDescending)
  }

  /** A stop is listed exactly when it lasts at least `stopDur` minutes (bound
    * included), and as often as the stop table holds it. */
  lemma ValidStopsKept(data: LocoData, stopThresh: real, stopDur: int)
    ensures var v, stops := ValidStops(data, stopThresh, stopDur), Stops(Sorted(data).points, stopThresh);
      && (forall s :: s in v <==> s in stops && s.durationMin >= stopDur as real)
      && (forall s :: multiset(v)[s] == if s.durationMin >= stopDur as real then multiset(stops)[s] else 0)
  {
    var stops := Stops(Sorted(data).points, stopThresh);
    SortByKeepsMembers(LongEnough(stops, stopDur as real), ByDurationDescending);
    LongEnoughCounts(stops, stopDur as real);
  }

  /** The listed stops come longest first. */
  lemma ValidStopsLongestFirst(data: LocoData, stopThresh: real, stopDur: int)
    ensures var v := ValidStops(data, stopThresh, stopDur);
      forall i, j :: 0 <= i < j < |v| ==> v[i].durationMin >= v[j].durationMin
  {
    var v := ValidStops(data, stopThresh, stopDur);
    forall i, j | 0 <= i < j < |v| ensures v[i].durationMin >= v[j].durationMin {
      assert ByDurationDescending(v[i]) <= ByDurationDescending(v[j]);
    }
  }

  /** Every listed stop is the stop of a maximal run of the sorted log slower
    * than the threshold, from the run's first row to its last, and lasts at
    * least `stopDur` minutes. */
  lemma ValidStopIsStoppedRun(data: LocoData, stopThresh: real, stopDur: int, s: Stop) returns (k: nat)
    requires s in ValidStops(data, stopThresh, stopDur)
    ensures k < |StopRuns(Sorted(data).points, stopThresh)| && Stops(Sorted(data).points, stopThresh)[k] == s
    ensures StopOfRun(Sorted(data).points, stopThresh, StopRuns(Sorted(data).points, stopThresh)[k], s)
    ensures s.durationMin >= stopDur as real
  {
    var rows := Sorted(data).points;
    SortByKeepsMembers(LongEnough(Stops(rows, stopThresh), stopDur as real), ByDurationDescending);
    k := KeptStopOfOrderedRun(rows, stopThresh, stopDur as real, s);
  }

  /** `signals_mapped`: empty unless both the signal list and the master are uploaded. */
  function SignalsMapped(signals: Option<seq<SignalRow>>, master: Option<seq<MasterRow>>): (mapped: seq<MergedRow>)
    ensures signals.None? || master.None? ==> mapped == []
    ensures signals.Some? && master.Some? ==> mapped == AppMapped(signals.value, master.value)
    ensures forall row :: row in mapped ==> row.lat.Some? && row.lon.Some?
  {
    if signals.Some? && master.Some? then
      var mapped := AppMapped(signals.value, master.value);
      assert forall row :: row in mapped ==> row.lat.Some? && row.lon.Some? by {
        forall row | row in mapped ensures row.lat.Some? && row.lon.Some? {
          AppMappedHaveCoordinates(signals.value, master.value, row);
        }
      }
      mapped
    else []
  }

  /** `violations` for the selected train type. */
  function SignalViolations(passes: seq<Pass>, trainType: string): seq<Pass>
  {
    Violations(passes, Limit(trainType))
  }

  /** The violations are exactly the passes faster than 60 km/h for a coaching
    * train and faster than 40 km/h for any other, each as often as it is a
    * pass, and they keep the pass order. */
  lemma SignalViolationsExactly(passes: seq<Pass>, trainType: string)
    ensures var v, limit := SignalViolations(passes, trainType), if trainType == "Coaching" then 60.0 else 40.0;
      && (forall p :: p in v <==> p in passes && p.speed > limit)
      && (forall p :: multiset(v)[p] == if p.speed > limit then multiset(passes)[p] else 0)
    ensures Subsequence(SignalViolations(passes, trainType), passes)
  {
    ViolationsCounts(passes, Limit(trainType));
    ViolationsAreSubsequence(passes, Limit(trainType));
  }

  /** The signal check of the third tab: the passes of the mapped signals over
    * the time-ordered telemetry, and those of them that are violations. */
  method SignalCheck(data: LocoData, signals: Option<seq<SignalRow>>, master: Option<seq<MasterRow>>,
                     trainType: string, dist: DistanceFn)
    returns (passes: seq<Pass>, violations: seq<Pass>)
    ensures passes == MatchAll(SignalsMapped(signals, master), Sorted(data).points, dist)
    ensures violations == SignalViolations(passes, trainType)
    ensures |passes| <= |SignalsMapped(signals, master)|
    ensures forall p :: p in violations <==> p in passes && p.speed > Limit(trainType) as real
  {
    var mapped := SignalsMapped(signals, master);
    var points := Sorted(data).points;
    passes := MatchSignals(mapped, points, dist);
    MatchAllOnePerSignal(mapped, points, dist);
    violations := Violations(passes, Limit(trainType));
  }
}
