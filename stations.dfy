/**
 * The section-wise summary: the run counter of `last/cur stationCode`, and one
 * row per group of the counter and the code, holding the first and last time
 * and the mean and maximum speed of the group.
 *
 * A missing code compares unequal to everything, so every row without a code
 * starts a group of its own. `groupby` then drops every group whose code is
 * missing, which is why sections are the runs whose first row has a code.
 */
module Stations {
  import opened Wrappers
  import opened Aggregates
  import opened Telemetry
  import opened Segmentation
  import opened Groups

  /** One row of `sect_stats`: the code, `Start`, `End`, `Avg_Speed`, `Max_Speed`. */
  datatype Section = Section(code: string, start: int, end: int, avgSpeed: real, maxSpeed: real)

  /** `!=` on the station-code column: a missing code differs from every code. */
  function CodeDiffers(a: Option<string>, b: Option<string>): bool
  {
    a.None? || b.None? || a != b
  }

  /** The codes that do not differ are equal, present codes. */
  lemma CodeDiffersCoversInequality()
    ensures forall a, b :: CodeDiffers(a, b) || a == b
    ensures forall a, b :: !CodeDiffers(a, b) ==> a.Some? && a == b
  {
  }

  /** The rows `groupby` keeps: those with a code. */
  function HasCode(c: Option<string>): bool { c.Some? }

  /** `section_grp`: the run counter of the station code. */
  function SectionGroups(points: seq<Point>): (ids: seq<nat>)
    ensures |ids| == |points|
  {
    GroupIds(ChangeMask(Stations(points), CodeDiffers))
  }

  /** The groups of `groupby(['section_grp', 'last/cur stationCode'])`, in group order. */
  function SectionRuns(points: seq<Point>): (rs: seq<Run>)
    ensures forall k :: 0 <= k < |rs| ==> rs[k].lo < rs[k].hi <= |points|
    ensures Ordered(rs)
  {
    KeptRuns(Stations(points), CodeDiffers, HasCode)
  }

  /** The aggregates of one group of rows sharing the code `code`. */
  function SummariseSection(code: string, rows: seq<Point>): Section
    requires |rows| > 0
  {
    Section(code, MinInt(Times(rows)), MaxInt(Times(rows)), Mean(Speeds(rows)), Max(Speeds(rows)))
  }

  /** Section run k is a run of rows that all carry the code of its first row. */
  lemma SectionRunSingleCode(points: seq<Point>, k: nat)
    requires k < |SectionRuns(points)|
    ensures var r := SectionRuns(points)[k];
      && points[r.lo].station.Some?
      && forall i :: r.lo <= i < r.hi ==> points[i].station == points[r.lo].station
  {
    var codes := Stations(points);
    assert SectionRuns(points) == KeptRuns(codes, CodeDiffers, HasCode);
    var r := SectionRuns(points)[k];
    CodeDiffersCoversInequality();
    KeptRunConstant(codes, CodeDiffers, HasCode, k);
    assert forall i :: r.lo <= i < r.hi ==> codes[i] == codes[r.lo];
  }

  /** The row of `sect_stats` for section run k. */
  function SectionSummary(points: seq<Point>, k: nat): Section
    requires k < |SectionRuns(points)|
  {
    SectionRunSingleCode(points, k);
    var r := SectionRuns(points)[k];
    SummariseSection(points[r.lo].station.value, points[r.lo..r.hi])
  }

  /** The sections of the rows, or `None` when the table has no station-code column. */
  function Sections(data: LocoData): (sections: Option<seq<Section>>)
    ensures sections.Some? <==> data.hasStationCodes
    ensures sections.Some? ==> |sections.value| == |SectionRuns(data.points)|
  {
    if !data.hasStationCodes then None
    else
      var n := |SectionRuns(data.points)|;
      Some(seq(n, k requires 0 <= k < n => SectionSummary(data.points, k)))
  }

  /** Every row with a code lies in a section run. */
  lemma CodedRowIsInASection(points: seq<Point>, i: nat)
    requires i < |points| && points[i].station.Some?
    ensures exists k :: 0 <= k < |SectionRuns(points)| && InRun(SectionRuns(points)[k], i)
  {
    var codes := Stations(points);
    assert SectionRuns(points) == KeptRuns(codes, CodeDiffers, HasCode);
    CodeDiffersCoversInequality();
    assert HasCode(codes[i]);
    KeptRowInKeptRun(codes, CodeDiffers, HasCode, i);
  }

  /** Two consecutive rows with the same code are never split between sections. */
  lemma EqualCodesNotSplit(points: seq<Point>, i: nat)
    requires i + 1 < |points| && points[i].station.Some? && points[i].station == points[i + 1].station
    ensures exists k :: (0 <= k < |SectionRuns(points)| &&
      InRun(SectionRuns(points)[k], i) && InRun(SectionRuns(points)[k], i + 1))
  {
    var codes := Stations(points);
    assert SectionRuns(points) == KeptRuns(codes, CodeDiffers, HasCode);
    CodeDiffersCoversInequality();
    assert HasCode(codes[i]) && !CodeDiffers(codes[i], codes[i + 1]);
    NotSplitWithoutChange(codes, CodeDiffers, HasCode, i);
  }

  /** The rows of section run k are exactly the rows with a code and with the
    * `section_grp` of its first row: one group of the `groupby`. */
  lemma SectionRunIsGroup(points: seq<Point>, k: nat)
    requires k < |SectionRuns(points)|
    ensures var r, ids := SectionRuns(points)[k], SectionGroups(points);
      forall i :: 0 <= i < |points| ==>
        (InRun(r, i) <==> points[i].station.Some? && ids[i] == ids[r.lo])
  {
    var codes := Stations(points);
    assert SectionRuns(points) == KeptRuns(codes, CodeDiffers, HasCode);
    CodeDiffersCoversInequality();
    KeptRunIsGroup(codes, CodeDiffers, HasCode, k);
    assert forall i :: 0 <= i < |points| ==> (HasCode(codes[i]) <==> points[i].station.Some?);
  }

  /** Start and End are the earliest and latest time of the rows, and the mean
    * speed is at most the maximum speed. */
  lemma SummariseSectionBounds(code: string, rows: seq<Point>)
    requires |rows| > 0
    ensures var s := SummariseSection(code, rows);
      && s.code == code
      && s.start <= s.end
      && (forall i :: 0 <= i < |rows| ==> s.start <= rows[i].time <= s.end)
      && s.avgSpeed <= s.maxSpeed
      && (forall i :: 0 <= i < |rows| ==> rows[i].speed <= s.maxSpeed)
  {
    var ts := Times(rows);
    assert ts[0] == rows[0].time;
    MeanAtMostMax(Speeds(rows));
  }

  /** Every row of section run k carries the code of its row of `sect_stats`. */
  lemma SectionSummaryCode(points: seq<Point>, k: nat)
    requires k < |SectionRuns(points)|
    ensures var s, r := SectionSummary(points, k), SectionRuns(points)[k];
      forall i :: r.lo <= i < r.hi ==> points[i].station == Some(s.code)
  {
    var r := SectionRuns(points)[k];
    SectionRunSingleCode(points, k);
    assert SectionSummary(points, k).code == points[r.lo].station.value;
  }

  /** The bounds of a summary of the rows `lo`, ..., `hi - 1`, stated on those rows. */
  lemma SummariseSliceBounds(code: string, points: seq<Point>, lo: nat, hi: nat)
    requires lo < hi <= |points|
    ensures var s := SummariseSection(code, points[lo..hi]);
      && s.start <= s.end
      && (forall i :: lo <= i < hi ==> s.start <= points[i].time <= s.end)
      && s.avgSpeed <= s.maxSpeed
  {
    var rows := points[lo..hi];
    var s := SummariseSection(code, rows);
    SummariseSectionBounds(code, rows);
    forall i | lo <= i < hi ensures s.start <= points[i].time <= s.end {
      assert points[i] == rows[i - lo];
    }
  }

  /** The row of `sect_stats` for section run k spans the times of its rows, and
    * its average speed is at most its maximum speed. */
  lemma SectionSummaryBounds(points: seq<Point>, k: nat)
    requires k < |SectionRuns(points)|
    ensures var s, r := SectionSummary(points, k), SectionRuns(points)[k];
      && s.start <= s.end
      && (forall i :: r.lo <= i < r.hi ==> s.start <= points[i].time <= s.end)
      && s.avgSpeed <= s.maxSpeed
  {
    var r := SectionRuns(points)[k];
    SectionRunSingleCode(points, k);
    SummariseSliceBounds(points[r.lo].station.value, points, r.lo, r.hi);
  }

  /** The row of section run k carries the single code of its rows, starts no
    * later than it ends, and its average speed is at most its maximum speed. */
  lemma SectionSummaryProperties(points: seq<Point>, k: nat)
    requires k < |SectionRuns(points)|
    ensures var s, r := SectionSummary(points, k), SectionRuns(points)[k];
      && (forall i :: r.lo <= i < r.hi ==> points[i].station == Some(s.code))
      && s.start <= s.end
      && (forall i :: r.lo <= i < r.hi ==> s.start <= points[i].time <= s.end)
      && s.avgSpeed <= s.maxSpeed
  {
    SectionSummaryCode(points, k);
    SectionSummaryBounds(points, k);
  }

  /** The same facts for the k-th row of the section table. */
  lemma SectionProperties(data: LocoData, k: nat)
    requires data.hasStationCodes && k < |SectionRuns(data.points)|
    ensures var s, r := Sections(data).value[k], SectionRuns(data.points)[k];
      && (forall i :: r.lo <= i < r.hi ==> data.points[i].station == Some(s.code))
      && s.start <= s.end
      && (forall i :: r.lo <= i < r.hi ==> s.start <= data.points[i].time <= s.end)
      && s.avgSpeed <= s.maxSpeed
  {
    assert Sections(data).value[k] == SectionSummary(data.points, k);
    SectionSummaryProperties(data.points, k);
  }
}
