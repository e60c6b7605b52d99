# Locomotive SPM analytics: a verified model of the analysis core

The two Streamlit dashboards `app.py` and `streamlit_app.py` analyse the GPS
speedometer (SPM) log of a locomotive. This project models their analysis
logic in Dafny, as functions and methods over sequences of row records. It
covers:

- the cumulative distance column;
- the run-length segmentation of the log into stoppages and station
  sections, the `(x != x.shift()).cumsum()` group counter followed by a
  `groupby`;
- the stoppage filter and its ordering;
- the mapping of signals to coordinates, a stripped-key left join with the
  OHE master followed by `dropna`;
- the proximity matcher that finds the telemetry point passing each signal;
- the yellow-signal violation rule;
- the trip statistics.

A telemetry row is a `Telemetry.Point`:

- its logging time, in whole seconds;
- its latitude and longitude;
- its speed in km/h;
- its `distFromPrevLatLng` increment in metres;
- its `last/cur stationCode`, where `None` is a missing cell.

Whether the `distFromPrevLatLng` and station-code columns exist is a flag on
`Telemetry.LocoData`. Speeds, coordinates and distances are exact reals.

The model is built from shared pieces, one Dafny module each: `Aggregates`,
`Sorting`, `Telemetry`, `Distance`, `Segmentation`, `Groups`, `Stoppage`,
`Stations`, `SignalMap`, `Proximity` and `TripStats`. Two modules assemble
them the way each script does: `App` for `app.py` and `StreamlitApp` for
`streamlit_app.py`. Both scripts sort the log by time first, so both modules
take the uploaded `LocoData` and compute the headline figures, the distance
column, the stop table and (in `App`) the section table on `Telemetry.Sorted`
of it.

Run-length segmentation is stated once, in `Segmentation` and `Groups`:

- It works over any key column and any "differs" relation. The boolean
  `is_stopped` column and the nullable station code are both instances.
- As in pandas, the first row always opens a group, because `shift()`
  yields NaN there.
- A missing station code differs from every code, itself included.
- `groupby` drops the groups whose key is missing.

The proximity matcher is the one loop in the source. It is a method,
`Proximity.MatchSignals`, proved against the function `Proximity.MatchAll`.
The geodesic distance is a function parameter, and nothing is assumed about
it.

One example run is proved (`StreamlitApp.ScenarioStops`): five rows a minute
apart, with speeds 50, 1, 1, 1 and 60 km/h. The code gives a single stop of
**two** minutes, the time from the first slow row to the last one, because
`Duration_min` is End - Start. The stop is listed and counted once.

## Model

| member | source | states |
|---|---|---|
| Distance.CumulativeKmIsPrefixSum | app.py:53-54 | entry i of the cumulative distance is the sum of increments 0..i divided by 1000 |
| Distance.CumulativeKmNonDecreasing | streamlit_app.py:154 | with no negative increment the cumulative distance never decreases |
| Distance.AppDistanceKm | app.py:53-57 | `Distance_km`: the cumulative increments in km when the column exists, `i * 0.01` otherwise; one entry per row (its values in the two lemmas below) |
| Distance.AppDistanceFromColumn | app.py:53-54 | with the increment column, `Distance_km[i]` is the prefix sum of increments / 1000, non-decreasing when no increment is negative |
| Distance.AppDistanceFallback | app.py:55-57 | without the increment column, `Distance_km[i]` is `i * 0.01`, strictly increasing in i |
| Distance.StreamlitCumDistKm | streamlit_app.py:151-154 | `cum_dist_km`: the cumulative zero-filled increments in km, one entry per row (its values in the two lemmas around it) |
| Distance.StreamlitZeroFallback | streamlit_app.py:151-154 | without the increment column every increment is 0, so `cum_dist_km` is 0 everywhere |
| Distance.StreamlitCumDistFromColumn | streamlit_app.py:154 | `cum_dist_km[i]` is the prefix sum of the (zero-filled) increments / 1000, non-decreasing when no increment is negative |
| Telemetry.SortByTime | app.py:50 | the sorted rows are in time order and are a permutation of the input rows |
| Telemetry.Sorted | streamlit_app.py:148 | sorting the log keeps its columns and yields a time-ordered permutation of its rows |
| Telemetry.TimeOrderedPairwise | app.py:50 | in time-ordered rows no later row is earlier than an earlier one |
| Telemetry.SortByTimeOfOrdered | streamlit_app.py:148 | sorting rows whose times strictly increase leaves them unchanged, as any sort must |
| Telemetry.SortedRowsAreRows | app.py:50 | the sorted log has as many rows as the log, and each of them is a row of the log |
| Sorting.SortBy | app.py:126 | the result is sorted by the key and is a permutation of the input |
| Sorting.SortByKeepsMembers | streamlit_app.py:171 | sorting neither adds nor loses an element |
| Sorting.SortBySorted | streamlit_app.py:171 | a sequence whose keys strictly increase is left unchanged, as any sort must |
| Segmentation.ChangeMask | app.py:117 | the first row is always a change; row i > 0 is a change exactly when its key differs from row i-1's |
| Segmentation.GroupIds | app.py:117 | the `.cumsum()` group counter, one entry per row (its steps in GroupIdsStep) |
| Segmentation.GroupIdsStep | app.py:117 | the group counter starts at 1 and rises by exactly 1 between consecutive rows whose keys differ, and stays the same otherwise |
| Segmentation.GroupIdsMonotone | app.py:117 | the group counter never decreases |
| Segmentation.Runs | app.py:117-119 | the groups of the counter as runs of rows, in row order (their meaning in RunsTile and RunsAreGroups) |
| Segmentation.RunsTile | app.py:117 | the runs cover the rows without gap or overlap; only a run's first row is a change |
| Segmentation.RunsAreGroups | app.py:117-119 | row i lies in the k-th run exactly when its group counter is k+1, so each row is in exactly one group |
| Segmentation.SizesSumToRowCount | app.py:117 | the run sizes sum to the row count |
| Segmentation.KeepRuns | app.py:119 | the kept runs are exactly those whose first row is marked, in their original order |
| Segmentation.NoChangeWithinRun | app.py:117 | consecutive rows inside one run never differ |
| Segmentation.RunEndsAtChange | app.py:117 | a run that ends before the last row is followed by a row whose key differs |
| Segmentation.RunsSplitAtChanges | app.py:117 | every run but the first starts at a row whose key differs from the previous row's |
| Groups.Marks | app.py:119 | mark i holds exactly when row i's key passes the filter |
| Groups.KeptRuns | app.py:119 | the kept groups are ordered, non-empty runs of rows |
| Groups.KeptRunIsRun | app.py:119 | each kept group is a run of the counter whose key passes the filter |
| Groups.KeptRunConstant | app.py:104 | every row of a kept group has the group's key, and that key passes the filter |
| Groups.KeptRunStartsAtChange | app.py:117 | a kept group starts at the first row or right after a row with a different key |
| Groups.KeptRunEndsAtChange | app.py:117 | a kept group ends at the last row or right before a row with a different key |
| Groups.KeptRowInKeptRun | app.py:119 | every row whose key passes the filter lies in a kept group |
| Groups.KeptRunIsGroup | app.py:119 | a kept group holds exactly the filtered rows that share its counter value |
| Groups.NotSplitWithoutChange | app.py:117-119 | two consecutive kept rows with equal keys are in the same group |
| Stoppage.StoppedMask | app.py:116 | `is_stopped` holds exactly when the speed is strictly below the threshold |
| Stoppage.StopRuns | app.py:119 | the stopped groups are ordered, non-empty runs of rows |
| Stoppage.Stops | app.py:119-125 | one stop per stopped group, in group order, each the summary of its group |
| Stoppage.StopRunAllStopped | app.py:116-119 | every row of a stopped group is slower than the threshold |
| Stoppage.StopRunMovingBefore | app.py:117 | the row before a stopped group is not slower than the threshold |
| Stoppage.StopRunMovingAfter | app.py:117 | the row after a stopped group is not slower than the threshold |
| Stoppage.StopRunIsMaximal | app.py:116-119 | a stopped group is a maximal run of rows slower than the threshold |
| Stoppage.StoppedRowIsInAStop | streamlit_app.py:160-162 | every row slower than the threshold lies in a stopped group |
| Stoppage.StopRunIsStopGroup | app.py:117-119 | a stopped group holds exactly the stopped rows that share its counter value |
| Stoppage.SummariseRows | app.py:119-125 | one row of `stops`: min and max time, mean latitude and longitude, and `Duration_min` = (End - Start) / 60 (its bounds in the two lemmas below) |
| Stoppage.RowsSummaryBounds | app.py:119-121 | StartTime and EndTime are the earliest and latest times of the group |
| Stoppage.RowsSummaryDuration | app.py:125 | `Duration_min` is (EndTime - StartTime) / 60, never negative, and 0 for a one-row group |
| Stoppage.OrderedSummary | streamlit_app.py:162-164 | on time-ordered rows a stop starts at its first row's time and ends at its last row's |
| Stoppage.StopBounds | streamlit_app.py:162-168 | each stop has Start <= End, `Duration_min` = (End - Start) / 60 >= 0 (0 for one row), all its rows' times in between, and first/last row times on sorted rows |
| Stoppage.StopOfOrderedRun | streamlit_app.py:160-168 | on time-ordered rows the k-th stop belongs to the k-th stopped group, a maximal run of slow rows, and starts at its first row, ends at its last and lasts the span between them in minutes |
| Stoppage.KeptStopOfOrderedRun | app.py:116-126 | on time-ordered rows a stop that passes the duration filter is the stop of a stopped group in that sense, and lasts at least the minimum |
| Stoppage.LongEnough | app.py:126 | a stop is kept exactly when its duration is at least the minimum, bound included; the result is no longer than the input |
| Stoppage.LongEnoughCounts | app.py:126 | each stop is kept as many times as it occurs when it lasts at least the minimum, and not at all otherwise |
| Stoppage.LongEnoughAppend | app.py:126 | filtering a concatenation is concatenating the filtered parts |
| Stoppage.LongEnoughCount | streamlit_app.py:169 | the number of kept stops is the number of positions of the stop table whose stop lasts at least the minimum |
| Stations.CodeDiffersCoversInequality | app.py:103 | `!=` on the code column holds whenever the codes are unequal, and also when either code is missing |
| Stations.SectionRuns | app.py:103-104 | the station sections are ordered, non-empty runs of rows |
| Stations.SectionRunSingleCode | app.py:103-104 | each section carries one (present) station code on all its rows |
| Stations.Sections | app.py:102-109 | the section table exists exactly when the station code column does, one entry per section |
| Stations.CodedRowIsInASection | app.py:104 | every row with a station code lies in a section |
| Stations.EqualCodesNotSplit | app.py:103-104 | two consecutive rows with the same code are never split between sections |
| Stations.SectionRunIsGroup | app.py:103-104 | a section holds exactly the coded rows that share its `section_grp` value |
| Stations.SectionSummary | app.py:104-108 | one row of `sect_stats`: the section's code, min and max time, mean and max speed (its properties in SectionSummaryProperties) |
| Stations.SummariseSectionBounds | app.py:104-109 | a section summary has Start <= End bracketing all its rows' times, Avg_Speed <= Max_Speed, Max_Speed at least every row's speed |
| Stations.SectionSummaryProperties | app.py:102-109 | the summary of a section carries the code of all its rows, Start <= End bracketing their times, and Avg_Speed <= Max_Speed |
| Stations.SectionProperties | app.py:102-110 | each row of the section table satisfies those properties |
| SignalMap.Strip | app.py:67-68 | `str.strip()` yields a contiguous slice of the input with only whitespace cut away, and no whitespace at either end |
| SignalMap.StripTrimmed | app.py:67-68 | a string with no whitespace at its ends is left unchanged |
| SignalMap.StripIdempotent | streamlit_app.py:179-180 | stripping twice is stripping once |
| SignalMap.AsText | app.py:67-68 | `astype(str)` keeps a text cell and turns a missing cell into "nan" |
| SignalMap.Matches | app.py:70-71 | the matches of a key are exactly the master rows whose cleaned `OHEMas` equals it |
| SignalMap.MatchesCounts | app.py:70-71 | each master row of equal cleaned key is a match as often as it occurs in the master, and no other row is one |
| SignalMap.JoinOne | app.py:70-71 | a signal yields at least one row: exactly `[Unmatched(s)]` when no master row matches, otherwise one joined row per matching master row, in master order; its rows are exactly its joins with the master rows of equal cleaned key |
| SignalMap.LeftMerge | app.py:70-71 | the left merge keeps every signal: it has at least as many rows as there are signals |
| SignalMap.LeftMergeMembers | app.py:70-71 | the merged rows are exactly the join rows of the signals |
| SignalMap.LeftMergeCons | app.py:70-71 | the merge of a list is the first signal's join rows followed by the merge of the rest |
| SignalMap.LeftMergeAppend | app.py:70-71 | merging two lists one after the other is concatenating their merges, so the merge is the join rows of each signal in signal order |
| SignalMap.LeftMergeSingle | app.py:70-71 | one signal merges into exactly its own join rows |
| SignalMap.DropMissingLatLon | app.py:72 | `dropna(subset=['Latitude', 'Longitude'])` keeps exactly the rows with both coordinates |
| SignalMap.DropMissingLat | streamlit_app.py:183 | `dropna(subset=['Latitude'])` keeps exactly the rows with a latitude |
| SignalMap.DropMissingLatLonCounts | app.py:72 | each row with both coordinates is kept as many times as it occurs, and a row missing either is dropped |
| SignalMap.DropMissingLatCounts | streamlit_app.py:183 | each row with a latitude is kept as many times as it occurs, and a row without one is dropped |
| SignalMap.EverySignalMerged | app.py:70-71 | every signal appears in the merge under its cleaned key |
| SignalMap.AppMapped | app.py:67-72 | `signals_mapped`: the merge with the rows lacking a coordinate dropped; every row has both coordinates |
| SignalMap.AppMappedExactly | app.py:67-72 | a row is mapped exactly when it joins a signal with a master row of equal cleaned key that has both coordinates |
| SignalMap.AppMappedHaveCoordinates | app.py:72 | every mapped signal has both coordinates and a matching master key |
| SignalMap.EmptyMasterMapsNothing | app.py:67-72 | an empty master maps no signal, in either script |
| SignalMap.StreamlitMapped | streamlit_app.py:179-183 | `mapped_sigs`: the merge with the rows lacking a latitude dropped; every row has a latitude |
| SignalMap.StreamlitMappedExactly | streamlit_app.py:179-183 | a row is mapped exactly when it joins a signal with a master row of equal cleaned key that has a latitude |
| Proximity.InBox | app.py:140-143 | the two inclusive `between` filters of 0.01 degrees around the signal; a signal without coordinates has an empty box |
| Proximity.Closest | app.py:140-147 | `idxmin` over the box: some point exactly when the box holds one, in the box, at no greater distance than any box point, and strictly nearer than every earlier box point |
| Proximity.MatchSignal | app.py:144-155 | a pass is reported exactly when the box is non-empty and the closest point is strictly under 200 m; it carries that point's time, speed and distance |
| Proximity.MatchAll | app.py:137-155 | the passes of all signals in signal order, at most one per signal |
| Proximity.MatchSignals | app.py:137-155 | the loop's `results` are the passes of all signals, in signal order |
| Proximity.MatchAllOnePerSignal | app.py:138-155 | at most one pass per signal, each the pass of some signal |
| Proximity.MatchAllComplete | app.py:149-155 | every signal with a pass contributes it to the results |
| Proximity.PassesAreNear | app.py:149 | every pass lies strictly closer than 200 m to its signal |
| Proximity.Limit | app.py:162 | the limit is 60 for "Coaching" and 40 for every other train type |
| Proximity.Violations | app.py:163 | the violations are exactly the passes faster than the limit, strictly |
| Proximity.ViolationsAreSubsequence | app.py:163 | the violations are the passes with some left out, order kept |
| Proximity.ViolationsCounts | app.py:163 | each pass over the limit is a violation as many times as it is a pass, and a pass at or below the limit is none |
| TripStats.Stats | app.py:81-84 | the figures exist exactly for a non-empty log |
| TripStats.StatsBounds | streamlit_app.py:189-192 | duration >= 0, mean speed <= max speed, max speed and total distance are attained by some row and bound every row |
| TripStats.OrderedDuration | app.py:84 | on time-ordered rows the duration is last time minus first time, in hours |
| TripStats.AppTotalIsLast | app.py:81 | with non-negative increments the total distance is the sum of all increments / 1000 |
| TripStats.AppTotalFallback | app.py:57 | without the increment column the total distance is (n - 1) * 0.01 km |
| TripStats.StreamlitTotalIsLast | streamlit_app.py:189 | with non-negative increments the total distance is the last entry of `cum_dist_km` |
| TripStats.StreamlitTotalFallback | streamlit_app.py:151-154 | without the increment column the total distance is 0 |
| App.TripFigures | app.py:50-84 | the headline figures, computed on the sorted log, exist exactly for a non-empty log |
| App.TripFiguresBounds | app.py:81-84 | the duration is the last minus the first time of the sorted log, in hours, and is >= 0; the mean speed is at most the maximum, which is the speed of some row and bounds the speed of every row |
| App.TripDistanceFromColumn | app.py:53-81 | with the increment column and no negative increment, the total distance is the sum of the increments of the sorted log / 1000 |
| App.TripDistanceFallback | app.py:55-81 | without the increment column, the total distance is (n - 1) * 0.01 km |
| App.SectionTable | app.py:102-109 | the section table, on the sorted log: present exactly when the station-code column is, one entry per section |
| App.SectionTableProperties | app.py:102-109 | every entry carries the code of all its section's rows, brackets their times between Start and End, and has Avg_Speed <= Max_Speed |
| App.ValidStops | app.py:126 | `valid_stops` on the sorted log: every listed stop lasts at least `stop_dur` minutes |
| App.ValidStopsKept | app.py:116-126 | a stop of the sorted log's stop table is listed exactly when its duration is at least `stop_dur` (bound included), and as often as the stop table holds it |
| App.ValidStopsLongestFirst | app.py:126 | the listed stops come in non-increasing order of duration |
| App.ValidStopIsStoppedRun | app.py:116-126 | every listed stop is the stop of a stopped group of the sorted log, a maximal run of rows slower than the threshold, from the run's first row to its last, and lasts at least `stop_dur` minutes |
| App.SignalsMapped | app.py:60-72 | nothing is mapped unless both reference files are uploaded; when both are, the mapped signals are `signals_mapped` of the two, all with both coordinates |
| App.SignalViolationsExactly | app.py:162-163 | the violations are exactly the passes faster than 60 (Coaching) or 40 (other types), in pass order |
| App.SignalCheck | app.py:135-163 | the passes over the time-ordered log are the matcher's, at most one per mapped signal, and the violations are those above the limit |
| StreamlitApp.TripFigures | streamlit_app.py:148-192 | the headline figures, computed on the sorted log, exist exactly for a non-empty log |
| StreamlitApp.TripFiguresBounds | streamlit_app.py:190-192 | the duration is the last minus the first time of the sorted log, in hours, and is >= 0; the mean speed is at most the maximum |
| StreamlitApp.TripDistance | streamlit_app.py:151-189 | with no negative increment the total distance is the last entry of `cum_dist_km` over the sorted log; without the increment column it is 0 |
| StreamlitApp.ValidStops | streamlit_app.py:169-171 | `valid_stops` on the sorted log: every listed stop lasts at least 2.0 minutes |
| StreamlitApp.ValidStopsKept | streamlit_app.py:160-169 | a stop of the sorted log's stop table is listed exactly when it lasts at least 2.0 minutes (bound included), and as often as the stop table holds it |
| StreamlitApp.ValidStopsByStart | streamlit_app.py:171 | the listed stops come in non-decreasing order of start |
| StreamlitApp.ValidStopIsStoppedRun | streamlit_app.py:157-169 | every listed stop is the stop of a stopped group of the sorted log, a maximal run of rows slower than 2.0 km/h, from the run's first row to its last, and lasts (End - Start) / 60 >= 2.0 minutes |
| StreamlitApp.MappedSignals | streamlit_app.py:174-183 | no signal is mapped unless both reference files are uploaded; when both are, the mapped signals are `mapped_sigs` of the two |
| StreamlitApp.StoppageCount | streamlit_app.py:85 | the stoppage count in the report is the number of stopped groups of the sorted log whose stop lasts at least two minutes |
| StreamlitApp.ScenarioSingleRun | streamlit_app.py:160-162 | for speeds 50, 1, 1, 1, 60 the only stopped group is rows 1..3 |
| StreamlitApp.ScenarioStops | streamlit_app.py:162-168 | that group gives one stop from 60 s to 180 s lasting 2.0 minutes |
| StreamlitApp.ScenarioSingleStop | streamlit_app.py:148-171 | uploaded as a log, the scenario lists exactly that stop, since the two-minute bound is inclusive, and the report counts one stoppage |

## Left out

- The Streamlit user interface is not modelled, because it only presents results: page set-up, styling, sidebar widgets, tabs, metrics, `st.map` and `st.dataframe`.
- The Plotly charts are not modelled, because they are rendering by a foreign library.
- CSV loading and `@st.cache_data` are not modelled, because they are file I/O and caching: the model starts from parsed rows.
- `pd.to_datetime` parsing is not modelled: times are whole seconds, already parsed.
- `haversine_vectorized` is not modelled, because it is floating-point trigonometry: the matcher takes the distance as a parameter and is proved for every function. Its use of `np.cos` on degrees is therefore not captured either.
- Floating point and NaN are not modelled as such: numbers are exact reals, and a missing cell is `None`. Means, sums and divisions carry no rounding.
- Stats on an empty log are not NaN: `TripStats.Stats` yields no figures, where pandas yields NaN.
- `astype(str)` on non-text cells is not modelled: key cells are text or missing, and a missing cell becomes "nan" as in pandas. The text form of numeric keys is not captured.
- The `try`/`except` around the join in `app.py` is not modelled, because the model's join cannot fail.
- Telemetry.SortByTime: promises only a time-ordered permutation, because `sort_values` uses an unstable quicksort and the order among equal times is not modelled.
- Sorting.SortBy: promises only a sorted permutation, for the same reason; the order among stops of equal duration or equal start is not modelled.
- The HTML report and its base64 download link are not modelled, because they only format text. The one figure with logic in them, the stoppage count, is `StreamlitApp.StoppageCount`.
- The `Location` column of `streamlit_app.py` is not modelled, because it only formats numbers.
- The group numbers are not carried in the tables: `Stations.Section` has no `section_grp` column (kept by `reset_index` in `app.py`) and `Stoppage.Stop` has no `stop_grp` index, because they only number the groups; the position of an entry in the table stands for it.
- The total distance of `app.py` is stated as the sum of the sorted log's increments; that this equals the sum in upload order is not proved, because sums of reals permuted are not modelled.
- The mean latitude and longitude of a stop are computed (`Stoppage.SummariseRows`), but no property of them is proved.
- The in-place column assignments on the data frame are not modelled as mutation: each new column is a function of the rows.
- The signal check of `streamlit_app.py` is a placeholder comment in the source: its mapped signals are computed and never used, and its violations table stays empty.
