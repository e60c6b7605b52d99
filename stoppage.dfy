/**
 * Stoppage detection: rows are stopped when their speed is strictly below a
 * threshold, stopped rows are grouped by the run counter, and each group is
 * summarised by its first and last time, its mean position and its duration
 * in minutes. Both scripts then keep the stops lasting at least a minimum.
 */
module Stoppage {
  import opened Aggregates
  import opened Telemetry
  import opened Segmentation
  import opened Groups

  /** One row of the `stops` table: `StartTime`, `EndTime`, mean `Lat` and `Lon`, `Duration_min`. */
  datatype Stop = Stop(start: int, end: int, lat: real, lon: real, durationMin: real)

  /** `is_stopped`: speed strictly below the threshold. */
  function StoppedMask(points: seq<Point>, threshold: real): (stopped: seq<bool>)
    ensures |stopped| == |points|
    ensures forall i :: 0 <= i < |points| ==> stopped[i] == (points[i].speed < threshold)
  {
    seq(|points|, i requires 0 <= i < |points| => points[i].speed < threshold)
  }

  /** `!=` on a boolean column (which has no missing values). */
  function BoolDiffers(a: bool, b: bool): bool { a != b }

  /** `stop_grp`: the run counter of `is_stopped`. */
  function StopGroups(points: seq<Point>, threshold: real): (ids: seq<nat>)
    ensures |ids| == |points|
  {
    GroupIds(ChangeMask(StoppedMask(points, threshold), BoolDiffers))
  }

  /** The filter `loco_df[is_stopped]`. */
  function IsTrue(b: bool): bool { b }

  /** `loco_df[is_stopped].groupby('stop_grp')`: the stopped groups, in group order. */
  function StopRuns(points: seq<Point>, threshold: real): (rs: seq<Run>)
    ensures forall k :: 0 <= k < |rs| ==> rs[k].lo < rs[k].hi <= |points|
    ensures Ordered(rs)
  {
    KeptRuns(StoppedMask(points, threshold), BoolDiffers, IsTrue)
  }

  /** The aggregates of one non-empty group of rows. */
  function SummariseRows(rows: seq<Point>): Stop
    requires |rows| > 0
  {
    var start, end := MinInt(Times(rows)), MaxInt(Times(rows));
    Stop(start, end, Mean(Lats(rows)), Mean(Lons(rows)), (end - start) as real / 60.0)
  }

  /** The aggregates of the rows of run `r`. */
  function Summarise(points: seq<Point>, r: Run): Stop
    requires r.lo < r.hi <= |points|
  {
    SummariseRows(points[r.lo..r.hi])
  }

  /** The `stops` table, one entry per stopped group, in group order. */
  function Stops(points: seq<Point>, threshold: real): (stops: seq<Stop>)
    ensures |stops| == |StopRuns(points, threshold)|
    ensures forall k :: 0 <= k < |stops| ==> stops[k] == Summarise(points, StopRuns(points, threshold)[k])
  {
    var rs := StopRuns(points, threshold);
    seq(|rs|, k requires 0 <= k < |rs| => Summarise(points, rs[k]))
  }

  /** Every row of stop run k is stopped. */
  lemma StopRunAllStopped(points: seq<Point>, threshold: real, k: nat)
    requires k < |StopRuns(points, threshold)|
    ensures var r := StopRuns(points, threshold)[k];
      forall i :: r.lo <= i < r.hi ==> points[i].speed < threshold
  {
    var stopped := StoppedMask(points, threshold);
    var rs := StopRuns(points, threshold);
    assert rs == KeptRuns(stopped, BoolDiffers, IsTrue);
    var r := rs[k];
    KeptRunConstant(stopped, BoolDiffers, IsTrue, k);
    assert forall i :: r.lo <= i < r.hi ==> stopped[i];
    forall i | r.lo <= i < r.hi ensures points[i].speed < threshold {
      assert stopped[i] == (points[i].speed < threshold);
    }
  }

  /** The row just before stop run k, if any, is moving. */
  lemma StopRunMovingBefore(points: seq<Point>, threshold: real, k: nat)
    requires k < |StopRuns(points, threshold)|
    ensures var r := StopRuns(points, threshold)[k];
      r.lo > 0 ==> points[r.lo - 1].speed >= threshold
  {
    var stopped := StoppedMask(points, threshold);
    var rs := StopRuns(points, threshold);
    assert rs == KeptRuns(stopped, BoolDiffers, IsTrue);
    var r := rs[k];
    KeptRunConstant(stopped, BoolDiffers, IsTrue, k);
    KeptRunStartsAtChange(stopped, BoolDiffers, IsTrue, k);
    if r.lo > 0 {
      assert InRun(r, r.lo);
      assert BoolDiffers(stopped[r.lo - 1], stopped[r.lo]) && IsTrue(stopped[r.lo]);
      assert !stopped[r.lo - 1];
    }
  }

  /** The row just after stop run k, if any, is moving. */
  lemma StopRunMovingAfter(points: seq<Point>, threshold: real, k: nat)
    requires k < |StopRuns(points, threshold)|
    ensures var r := StopRuns(points, threshold)[k];
      r.hi < |points| ==> points[r.hi].speed >= threshold
  {
    var stopped := StoppedMask(points, threshold);
    var rs := StopRuns(points, threshold);
    assert rs == KeptRuns(stopped, BoolDiffers, IsTrue);
    var r := rs[k];
    KeptRunConstant(stopped, BoolDiffers, IsTrue, k);
    KeptRunEndsAtChange(stopped, BoolDiffers, IsTrue, k);
    if r.hi < |points| {
      assert InRun(r, r.hi - 1);
      assert BoolDiffers(stopped[r.hi - 1], stopped[r.hi]) && IsTrue(stopped[r.hi - 1]);
      assert !stopped[r.hi];
    }
  }

  /** Stop run k is a maximal run of rows whose speed is below the threshold. */
  lemma StopRunIsMaximal(points: seq<Point>, threshold: real, k: nat)
    requires k < |StopRuns(points, threshold)|
    ensures var r := StopRuns(points, threshold)[k];
      && (forall i :: r.lo <= i < r.hi ==> points[i].speed < threshold)
      && (r.lo > 0 ==> points[r.lo - 1].speed >= threshold)
      && (r.hi < |points| ==> points[r.hi].speed >= threshold)
  {
    StopRunAllStopped(points, threshold, k);
    StopRunMovingBefore(points, threshold, k);
    StopRunMovingAfter(points, threshold, k);
  }

  /** Every row whose speed is below the threshold belongs to a stop run. */
  lemma StoppedRowIsInAStop(points: seq<Point>, threshold: real, i: nat)
    requires i < |points| && points[i].speed < threshold
    ensures exists k :: 0 <= k < |StopRuns(points, threshold)| && InRun(StopRuns(points, threshold)[k], i)
  {
    var stopped := StoppedMask(points, threshold);
    assert StopRuns(points, threshold) == KeptRuns(stopped, BoolDiffers, IsTrue);
    KeptRowInKeptRun(stopped, BoolDiffers, IsTrue, i);
  }

  /** The rows summarised by stop k are exactly the stopped rows of one value of
    * `stop_grp`, which is what `groupby` collects. */
  lemma StopRunIsStopGroup(points: seq<Point>, threshold: real, k: nat)
    requires k < |StopRuns(points, threshold)|
    ensures var r, ids := StopRuns(points, threshold)[k], StopGroups(points, threshold);
      forall i :: 0 <= i < |points| ==>
        (InRun(r, i) <==> points[i].speed < threshold && ids[i] == ids[r.lo])
  {
    var stopped := StoppedMask(points, threshold);
    assert StopRuns(points, threshold) == KeptRuns(stopped, BoolDiffers, IsTrue);
    KeptRunIsGroup(stopped, BoolDiffers, IsTrue, k);
  }

  /** The start and end of a summary are the earliest and latest time of its rows. */
  lemma RowsSummaryBounds(rows: seq<Point>)
    requires |rows| > 0
    ensures var s := SummariseRows(rows);
      && s.start <= s.end
      && (forall i :: 0 <= i < |rows| ==> s.start <= rows[i].time <= s.end)
      && (exists i :: 0 <= i < |rows| && rows[i].time == s.start)
      && (exists i :: 0 <= i < |rows| && rows[i].time == s.end)
  {
    var ts := Times(rows);
    assert ts[0] == rows[0].time;
  }

  /** On time-ordered rows a summary starts at the first row and ends at the last. */
  lemma OrderedRowsSummary(rows: seq<Point>)
    requires |rows| > 0 && TimeOrdered(rows)
    ensures SummariseRows(rows).start == rows[0].time
    ensures SummariseRows(rows).end == rows[|rows| - 1].time
  {
    var ts := Times(rows);
    var s := SummariseRows(rows);
    RowsSummaryBounds(rows);
    var a :| 0 <= a < |rows| && rows[a].time == s.start;
    var b :| 0 <= b < |rows| && rows[b].time == s.end;
    TimeOrderedPairwise(rows, 0, a);
    TimeOrderedPairwise(rows, b, |rows| - 1);
  }

  /** The duration of a summary is its span in minutes: non-negative, and zero for one row. */
  lemma RowsSummaryDuration(rows: seq<Point>)
    requires |rows| > 0
    ensures var s := SummariseRows(rows);
      && s.durationMin == (s.end - s.start) as real / 60.0
      && s.durationMin >= 0.0
      && (|rows| == 1 ==> s.durationMin == 0.0)
  {
    RowsSummaryBounds(rows);
  }

  /** The same facts for the rows of a run. */
  lemma SummaryBounds(points: seq<Point>, r: Run)
    requires r.lo < r.hi <= |points|
    ensures var s := Summarise(points, r);
      && s.start <= s.end
      && s.durationMin == (s.end - s.start) as real / 60.0
      && s.durationMin >= 0.0
      && (r.hi - r.lo == 1 ==> s.durationMin == 0.0)
      && (forall i :: InRun(r, i) ==> s.start <= points[i].time <= s.end)
  {
    var rows := points[r.lo..r.hi];
    RowsSummaryBounds(rows);
    RowsSummaryDuration(rows);
    assert forall i :: InRun(r, i) ==> points[i] == rows[i - r.lo];
  }

  /** On time-ordered rows, the summary of a run starts at its first row and ends at its last. */
  lemma OrderedSummary(points: seq<Point>, r: Run)
    requires r.lo < r.hi <= |points| && TimeOrdered(points)
    ensures Summarise(points, r).start == points[r.lo].time
    ensures Summarise(points, r).end == points[r.hi - 1].time
  {
    var rows := points[r.lo..r.hi];
    TimeOrderedSlice(points, r.lo, r.hi);
    OrderedRowsSummary(rows);
    assert rows[0] == points[r.lo] && rows[|rows| - 1] == points[r.hi - 1];
  }

  /** A stop starts no later than it ends and lasts a non-negative number of
    * minutes (zero for a single row); start and end are the earliest and latest
    * time of its rows, which on time-ordered rows are its first and last row. */
  lemma StopBounds(points: seq<Point>, threshold: real, k: nat)
    requires k < |Stops(points, threshold)|
    ensures var s, r := Stops(points, threshold)[k], StopRuns(points, threshold)[k];
      && s.start <= s.end
      && s.durationMin == (s.end - s.start) as real / 60.0
      && s.durationMin >= 0.0
      && (r.hi - r.lo == 1 ==> s.durationMin == 0.0)
      && (forall i :: InRun(r, i) ==> s.start <= points[i].time <= s.end)
      && (TimeOrdered(points) ==> s.start == points[r.lo].time && s.end == points[r.hi - 1].time)
  {
    var r := StopRuns(points, threshold)[k];
    var s := Stops(points, threshold)[k];
    assert s == Summarise(points, r);
    SummaryBounds(points, r);
    if TimeOrdered(points) {
      OrderedSummary(points, r);
      assert s.end == points[r.hi - 1].time;
    }
  }

  /** `s` is the stop of the maximal slow run `r` of time-ordered rows: every
    * row of the run is below the threshold, the rows just outside it are not,
    * and the stop starts at the run's first row, ends at its last and lasts
    * the span between them, in minutes. */
  predicate StopOfRun(points: seq<Point>, threshold: real, r: Run, s: Stop)
    requires r.lo < r.hi <= |points|
  {
    && (forall i :: r.lo <= i < r.hi ==> points[i].speed < threshold)
    && (r.lo > 0 ==> points[r.lo - 1].speed >= threshold)
    && (r.hi < |points| ==> points[r.hi].speed >= threshold)
    && s.start == points[r.lo].time && s.end == points[r.hi - 1].time
    && s.durationMin == (s.end - s.start) as real / 60.0
  }

  /** On time-ordered rows, the k-th stop is the stop of the k-th slow run,
    * which is maximal and spans the stop from its first row to its last. */
  lemma StopOfOrderedRun(points: seq<Point>, threshold: real, k: nat)
    requires TimeOrdered(points) && k < |StopRuns(points, threshold)|
    ensures StopOfRun(points, threshold, StopRuns(points, threshold)[k], Stops(points, threshold)[k])
  {
    StopRunIsMaximal(points, threshold, k);
    StopBounds(points, threshold, k);
  }

  /** On time-ordered rows, a stop that passes the duration filter is the k-th
    * stop, that of the k-th slow run, and lasts at least the minimum. */
  lemma KeptStopOfOrderedRun(points: seq<Point>, threshold: real, minimum: real, s: Stop) returns (k: nat)
    requires TimeOrdered(points) && s in LongEnough(Stops(points, threshold), minimum)
    ensures k < |StopRuns(points, threshold)| && Stops(points, threshold)[k] == s
    ensures StopOfRun(points, threshold, StopRuns(points, threshold)[k], s)
    ensures s.durationMin >= minimum
  {
    var stops := Stops(points, threshold);
    k :| 0 <= k < |stops| && stops[k] == s;
    StopOfOrderedRun(points, threshold, k);
  }

  /** `stops[stops['Duration_min'] >= minimum]`: the stops lasting at least the
    * minimum, in their original order. */
  function LongEnough(stops: seq<Stop>, minimum: real): (kept: seq<Stop>)
    decreases |stops|
    ensures |kept| <= |stops|
    ensures forall s :: s in kept <==> s in stops && s.durationMin >= minimum
  {
    if stops == [] then []
    else
      var rest := LongEnough(stops[1..], minimum);
      assert forall s :: s in stops <==> s == stops[0] || s in stops[1..];
      if stops[0].durationMin >= minimum then [stops[0]] + rest else rest
  }

  /** The filter keeps each long enough stop as often as the table holds it, and no other. */
  lemma {:induction false} LongEnoughCounts(stops: seq<Stop>, minimum: real)
    ensures var kept := LongEnough(stops, minimum);
      forall s :: multiset(kept)[s] == if s.durationMin >= minimum then multiset(stops)[s] else 0
    decreases |stops|
  {
    if stops != [] {
      LongEnoughCounts(stops[1..], minimum);
      assert stops == [stops[0]] + stops[1..];
    }
  }

  /** The filter of a concatenation is the concatenation of the filters. */
  lemma {:induction false} LongEnoughAppend(a: seq<Stop>, b: seq<Stop>, minimum: real)
    ensures LongEnough(a + b, minimum) == LongEnough(a, minimum) + LongEnough(b, minimum)
    decreases |a|
  {
    if a == [] {
      assert a + b == b;
    } else {
      assert (a + b)[0] == a[0] && (a + b)[1..] == a[1..] + b;
      LongEnoughAppend(a[1..], b, minimum);
    }
  }

  /** The filter keeps one stop for every position of the table whose stop
    * lasts at least the minimum. */
  lemma {:induction false} LongEnoughCount(stops: seq<Stop>, minimum: real)
    ensures |LongEnough(stops, minimum)| == |LongIndices(stops, minimum)|
    decreases |stops|
  {
    if stops == [] {
      assert LongIndices(stops, minimum) == {};
    } else {
      var n := |stops| - 1;
      var pre := stops[..n];
      LongEnoughCount(pre, minimum);
      assert stops == pre + [stops[n]];
      LongEnoughAppend(pre, [stops[n]], minimum);
      assert [stops[n]][1..] == [];
      LongIndicesStep(stops, minimum);
    }
  }

  /** The positions of the table whose stop lasts at least the minimum. */
  function LongIndices(stops: seq<Stop>, minimum: real): set<nat>
  {
    set k: nat | k < |stops| && stops[k].durationMin >= minimum
  }

  /** Adding a stop at the end adds its position exactly when it is long enough. */
  lemma LongIndicesStep(stops: seq<Stop>, minimum: real)
    requires stops != []
    ensures var n := |stops| - 1;
      |LongIndices(stops, minimum)| ==
        |LongIndices(stops[..n], minimum)| + (if stops[n].durationMin >= minimum then 1 else 0)
  {
    var n := |stops| - 1;
    var all, before := LongIndices(stops, minimum), LongIndices(stops[..n], minimum);
    forall k: nat ensures k in all <==> k in before || (k == n && stops[n].durationMin >= minimum) {
      if k < n {
        assert stops[..n][k] == stops[k];
      }
    }
    if stops[n].durationMin >= minimum {
      assert all == before + {n};
    } else {
      assert all == before;
    }
  }

  /** Sort key for descending duration. */
  function ByDurationDescending(s: Stop): real { -s.durationMin }

  /** Sort key for ascending start. */
  function ByStart(s: Stop): real { s.start as real }
}
