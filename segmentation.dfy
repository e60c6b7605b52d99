/**
 * Run-length segmentation, the pandas idiom `(x != x.shift()).cumsum()`
 * followed by a `groupby` on the counter.
 *
 * `ChangeMask` is the boolean column `x != x.shift()`: the first row compares
 * against the missing value that `shift()` introduces, so it is always a
 * change. `differs` is the column's `!=`, which for missing values is true
 * (NaN differs from everything, itself included). `GroupIds` is its
 * `cumsum()`, and `Runs` lists the groups as contiguous index ranges.
 */
module Segmentation {

  /** The rows `lo`, ..., `hi - 1`. */
  datatype Run = Run(lo: nat, hi: nat)

  /** `x != x.shift()`. */
  function ChangeMask<K>(keys: seq<K>, differs: (K, K) -> bool): (mask: seq<bool>)
    ensures |mask| == |keys|
    ensures |keys| > 0 ==> mask[0]
    ensures forall i :: 0 < i < |keys| ==> mask[i] == differs(keys[i - 1], keys[i])
  {
    seq(|keys|, i requires 0 <= i < |keys| => i == 0 || differs(keys[i - 1], keys[i]))
  }

  /** `mask.cumsum()`: the group counter of every row, as a running count of changes. */
  function GroupIds(mask: seq<bool>): (ids: seq<nat>)
    decreases |mask|
    ensures |ids| == |mask|
  {
    if mask == [] then []
    else
      var p := GroupIds(mask[..|mask| - 1]);
      p + [(if p == [] then 0 else p[|p| - 1]) + (if mask[|mask| - 1] then 1 else 0)]
  }

  /** A row after the first is a change exactly when its key differs from the one before. */
  lemma ChangeMaskAt<K>(keys: seq<K>, differs: (K, K) -> bool, j: nat, j': nat)
    requires j' == j + 1 < |keys|
    ensures ChangeMask(keys, differs)[j'] == differs(keys[j], keys[j'])
  {
    assert keys[j' - 1] == keys[j];
  }

  /** The counter starts at 1 and goes up by exactly one at every change and
    * stays the same otherwise. */
  lemma {:induction false} GroupIdsStep<K>(keys: seq<K>, differs: (K, K) -> bool)
    ensures var ids := GroupIds(ChangeMask(keys, differs));
      && (|keys| > 0 ==> ids[0] == 1)
      && (forall i, i' :: 0 <= i && i' == i + 1 && i' < |keys| ==>
            ids[i'] == ids[i] + (if differs(keys[i], keys[i']) then 1 else 0))
  {
    var mask := ChangeMask(keys, differs);
    CountsStep(mask);
    forall i, i' | 0 <= i && i' == i + 1 && i' < |keys| ensures mask[i'] == differs(keys[i], keys[i']) {
      ChangeMaskAt(keys, differs, i, i');
    }
  }

  /** The same step property stated on the mask. */
  lemma {:induction false} CountsStep(mask: seq<bool>)
    ensures var ids := GroupIds(mask);
      && (|mask| > 0 ==> ids[0] == (if mask[0] then 1 else 0))
      && (forall i, i' :: 0 <= i && i' == i + 1 && i' < |mask| ==> ids[i'] == ids[i] + (if mask[i'] then 1 else 0))
    decreases |mask|
  {
    if mask != [] {
      var pre := mask[..|mask| - 1];
      CountsStep(pre);
      assert forall i :: 0 <= i < |pre| ==> GroupIds(mask)[i] == GroupIds(pre)[i];
    }
  }

  /** The counter never decreases. */
  lemma {:induction false} GroupIdsMonotone(mask: seq<bool>, i: nat, j: nat)
    requires i <= j < |mask|
    ensures GroupIds(mask)[i] <= GroupIds(mask)[j]
    decreases j - i
  {
    if i < j {
      CountsStep(mask);
      GroupIdsMonotone(mask, i, j - 1);
    }
  }

  /** Runs cover 0..n in order, each non-empty, each starting where the previous ends. */
  predicate Tiles(rs: seq<Run>, n: nat)
  {
    && (rs == [] <==> n == 0)
    && (rs != [] ==> rs[0].lo == 0 && rs[|rs| - 1].hi == n)
    && (forall k :: 0 <= k < |rs| ==> rs[k].lo < rs[k].hi <= n)
    && (forall k, k' :: 0 <= k < |rs| && 0 <= k' < |rs| && k' == k + 1 ==> rs[k].hi == rs[k'].lo)
  }

  /** Tiling runs are ordered: an earlier run ends before a later one starts. */
  lemma {:induction false} TilesOrdered(rs: seq<Run>, n: nat, k: nat, k': nat)
    requires Tiles(rs, n) && k < k' < |rs|
    ensures rs[k].hi <= rs[k'].lo
    decreases k' - k
  {
    if k + 1 < k' {
      TilesOrdered(rs, n, k, k' - 1);
    }
  }

  predicate InRun(r: Run, i: int)
  {
    r.lo <= i < r.hi
  }

  /** No run spans a change: inside a run the mask is false. */
  predicate NoChangeInside(rs: seq<Run>, mask: seq<bool>)
  {
    forall k, i :: 0 <= k < |rs| && rs[k].lo < i < rs[k].hi && i < |mask| ==> !mask[i]
  }

  /** Every run but the first starts at a change. */
  predicate ChangeAtStarts(rs: seq<Run>, mask: seq<bool>)
  {
    forall k :: 0 < k < |rs| && rs[k].lo < |mask| ==> mask[rs[k].lo]
  }

  /** Adds row n - 1 to the runs of rows 0..n - 2: a new run on a change, else
    * the last run grows by one row. */
  function Extend(rs: seq<Run>, n: nat, change: bool): seq<Run>
    requires n >= 1
  {
    if rs == [] || change then rs + [Run(n - 1, n)]
    else rs[..|rs| - 1] + [Run(rs[|rs| - 1].lo, n)]
  }

  /** The maximal runs of rows that begin at a true entry of `mask` (and at row 0). */
  function Runs(mask: seq<bool>): seq<Run>
    decreases |mask|
  {
    if mask == [] then [] else Extend(Runs(mask[..|mask| - 1]), |mask|, mask[|mask| - 1])
  }

  lemma ExtendTiles(rs: seq<Run>, n: nat, change: bool)
    requires n >= 1 && Tiles(rs, n - 1)
    ensures Tiles(Extend(rs, n, change), n)
  {
    var r := Extend(rs, n, change);
    if !(rs == [] || change) {
      assert forall k :: 0 <= k < |rs| - 1 ==> r[k] == rs[k];
    }
  }

  lemma ExtendKeepsChanges(rs: seq<Run>, mask: seq<bool>)
    requires |mask| >= 1 && Tiles(rs, |mask| - 1)
    requires NoChangeInside(rs, mask) && ChangeAtStarts(rs, mask)
    ensures var r := Extend(rs, |mask|, mask[|mask| - 1]);
      NoChangeInside(r, mask) && ChangeAtStarts(r, mask)
  {
    var n := |mask|;
    var r := Extend(rs, n, mask[n - 1]);
    if !(rs == [] || mask[n - 1]) {
      var m := |rs|;
      assert forall k :: 0 <= k < m - 1 ==> r[k] == rs[k];
      forall k, i | 0 <= k < |r| && r[k].lo < i < r[k].hi && i < n ensures !mask[i] {
        if k == m - 1 && i < n - 1 { assert rs[k].lo < i < rs[k].hi; }
      }
    }
  }

  /** Runs of the rows before the last keep their change properties on the whole mask. */
  lemma ChangesOfPrefix(rs: seq<Run>, mask: seq<bool>)
    requires |mask| >= 1 && Tiles(rs, |mask| - 1)
    requires NoChangeInside(rs, mask[..|mask| - 1]) && ChangeAtStarts(rs, mask[..|mask| - 1])
    ensures NoChangeInside(rs, mask) && ChangeAtStarts(rs, mask)
  {
    var pre := mask[..|mask| - 1];
    forall k, i | 0 <= k < |rs| && rs[k].lo < i < rs[k].hi && i < |mask| ensures !mask[i] {
      assert pre[i] == mask[i];
    }
    forall k | 0 < k < |rs| && rs[k].lo < |mask| ensures mask[rs[k].lo] {
      assert pre[rs[k].lo] == mask[rs[k].lo];
    }
  }

  /** The runs tile the rows; a run starts exactly where the mask is true
    * (row 0 aside), so no run is split without a change and none spans one. */
  lemma {:induction false} RunsTile(mask: seq<bool>)
    ensures Tiles(Runs(mask), |mask|)
    ensures NoChangeInside(Runs(mask), mask) && ChangeAtStarts(Runs(mask), mask)
    decreases |mask|
  {
    if mask != [] {
      var n := |mask|;
      var pre := mask[..n - 1];
      RunsTile(pre);
      var rs := Runs(pre);
      ChangesOfPrefix(rs, mask);
      ExtendTiles(rs, n, mask[n - 1]);
      ExtendKeepsChanges(rs, mask);
    }
  }

  /** Every row of a prefix lies in the run its counter numbers. */
  predicate RowsInTheirRuns(rs: seq<Run>, ids: seq<nat>)
  {
    forall i :: 0 <= i < |ids| ==> 1 <= ids[i] <= |rs| && InRun(rs[ids[i] - 1], i)
  }

  /** The last row of a prefix lies in its last run. */
  lemma LastRowInLastRun(rs: seq<Run>, ids: seq<nat>)
    requires |ids| > 0 && Tiles(rs, |ids|) && RowsInTheirRuns(rs, ids)
    ensures ids[|ids| - 1] == |rs|
  {
    var n := |ids|;
    var g := ids[n - 1];
    assert InRun(rs[g - 1], n - 1);
    if g < |rs| {
      TilesOrdered(rs, n, g - 1, |rs| - 1);
    }
  }

  /** A change opens a new run, numbered one past the last. */
  lemma NewRunKeepsRows(rs: seq<Run>, ids: seq<nat>, n: nat)
    requires n >= 1 && |ids| == n - 1 && RowsInTheirRuns(rs, ids)
    ensures RowsInTheirRuns(rs + [Run(n - 1, n)], ids + [|rs| + 1])
  {
    var r, ids2 := rs + [Run(n - 1, n)], ids + [|rs| + 1];
    forall i | 0 <= i < n ensures 1 <= ids2[i] <= |r| && InRun(r[ids2[i] - 1], i) {
      if i < n - 1 {
        assert ids2[i] == ids[i];
        assert r[ids[i] - 1] == rs[ids[i] - 1];
      }
    }
  }

  /** Without a change the last run grows to take in the new row. */
  lemma LastRunKeepsRows(rs: seq<Run>, ids: seq<nat>, n: nat)
    requires n >= 2 && |ids| == n - 1 && |rs| >= 1 && RowsInTheirRuns(rs, ids)
    requires forall k :: 0 <= k < |rs| ==> rs[k].lo < rs[k].hi <= n - 1
    ensures RowsInTheirRuns(rs[..|rs| - 1] + [Run(rs[|rs| - 1].lo, n)], ids + [|rs|])
  {
    var m := |rs|;
    var r, ids2 := rs[..m - 1] + [Run(rs[m - 1].lo, n)], ids + [m];
    forall i | 0 <= i < n ensures 1 <= ids2[i] <= |r| && InRun(r[ids2[i] - 1], i) {
      if i < n - 1 {
        assert ids2[i] == ids[i];
        assert InRun(rs[ids[i] - 1], i);
        if ids[i] < m {
          assert r[ids[i] - 1] == rs[ids[i] - 1];
        }
      } else {
        assert ids2[i] == m;
      }
    }
  }

  lemma ExtendKeepsRows(rs: seq<Run>, ids: seq<nat>, n: nat, change: bool)
    requires n >= 1 && |ids| == n - 1 && Tiles(rs, n - 1) && RowsInTheirRuns(rs, ids)
    requires n == 1 ==> change
    ensures var last := (if ids == [] then 0 else ids[|ids| - 1]) + (if change then 1 else 0);
      RowsInTheirRuns(Extend(rs, n, change), ids + [last])
  {
    if n > 1 {
      LastRowInLastRun(rs, ids);
    }
    if rs == [] || change {
      NewRunKeepsRows(rs, ids, n);
    } else {
      LastRunKeepsRows(rs, ids, n);
    }
  }

  /** Every row lies in the run numbered by its group counter. */
  lemma {:induction false} RowInItsRun(mask: seq<bool>)
    requires |mask| > 0 ==> mask[0]
    ensures RowsInTheirRuns(Runs(mask), GroupIds(mask))
    decreases |mask|
  {
    if mask != [] {
      var n := |mask|;
      var pre := mask[..n - 1];
      RowInItsRun(pre);
      RunsTile(pre);
      ExtendKeepsRows(Runs(pre), GroupIds(pre), n, mask[n - 1]);
    }
  }

  /** Run number k holds exactly the rows whose group counter is k + 1, so the
    * runs are the groups of `groupby` on the counter, in ascending group order,
    * and every row is in exactly one of them. */
  lemma RunsAreGroups(mask: seq<bool>)
    requires |mask| > 0 ==> mask[0]
    ensures var rs, ids := Runs(mask), GroupIds(mask);
      forall k, i :: 0 <= k < |rs| && 0 <= i < |mask| ==> (InRun(rs[k], i) <==> ids[i] == k + 1)
  {
    var rs, ids := Runs(mask), GroupIds(mask);
    RowInItsRun(mask);
    RunsTile(mask);
    forall k, i | 0 <= k < |rs| && 0 <= i < |mask| && InRun(rs[k], i)
      ensures ids[i] == k + 1
    {
      var g: nat := ids[i] - 1;
      assert InRun(rs[g], i);
      if g < k { TilesOrdered(rs, |mask|, g, k); }
      if k < g { TilesOrdered(rs, |mask|, k, g); }
    }
  }

  /** Total number of rows in a list of runs. */
  function Size(rs: seq<Run>): int
    decreases |rs|
  {
    if rs == [] then 0 else Size(rs[..|rs| - 1]) + (rs[|rs| - 1].hi - rs[|rs| - 1].lo)
  }

  /** The group sizes add up to the row count. */
  lemma {:induction false} SizesSumToRowCount(rs: seq<Run>, n: nat)
    requires Tiles(rs, n)
    ensures Size(rs) == n
    decreases |rs|
  {
    if |rs| > 1 {
      var pre := rs[..|rs| - 1];
      forall k | 0 <= k < |pre| ensures pre[k].hi <= rs[|rs| - 1].lo {
        if k < |pre| - 1 { TilesOrdered(rs, n, k, |rs| - 1); }
      }
      SizesSumToRowCount(pre, rs[|rs| - 1].lo);
    }
  }

  /** An earlier run ends no later than a later one starts. */
  predicate Ordered(rs: seq<Run>)
  {
    forall k, k' :: 0 <= k < k' < |rs| ==> rs[k].hi <= rs[k'].lo
  }

  lemma RunsOrdered(mask: seq<bool>)
    ensures forall k :: 0 <= k < |Runs(mask)| ==> Runs(mask)[k].lo < Runs(mask)[k].hi <= |mask|
    ensures Ordered(Runs(mask))
  {
    RunsTile(mask);
    var rs := Runs(mask);
    forall k, k' | 0 <= k < k' < |rs| ensures rs[k].hi <= rs[k'].lo {
      TilesOrdered(rs, |mask|, k, k');
    }
  }

  /** The runs whose first row is marked, in their original order: the groups that
    * survive a row filter applied before `groupby` when the filter is constant on
    * each group. */
  function KeepRuns(rs: seq<Run>, marks: seq<bool>): (kept: seq<Run>)
    requires forall k :: 0 <= k < |rs| ==> rs[k].lo < |marks|
    decreases |rs|
    ensures |kept| <= |rs|
    ensures forall r :: r in kept <==> r in rs && marks[r.lo]
    ensures Ordered(rs) ==> Ordered(kept)
  {
    if rs == [] then []
    else
      var rest := KeepRuns(rs[1..], marks);
      assert forall r :: r in rs <==> r == rs[0] || r in rs[1..];
      OrderedTail(rs);
      if marks[rs[0].lo] then
        OrderedCons(rs[0], rest);
        [rs[0]] + rest
      else rest
  }

  /** The tail of ordered runs is ordered, and starts after the first run ends. */
  lemma OrderedTail(rs: seq<Run>)
    requires rs != []
    ensures Ordered(rs) ==> Ordered(rs[1..]) && forall r :: r in rs[1..] ==> rs[0].hi <= r.lo
  {
    if Ordered(rs) {
      var tail := rs[1..];
      forall k, k' | 0 <= k < k' < |tail| ensures tail[k].hi <= tail[k'].lo {
        assert tail[k] == rs[k + 1] && tail[k'] == rs[k' + 1];
      }
      forall r | r in tail ensures rs[0].hi <= r.lo {
        var j :| 0 <= j < |tail| && tail[j] == r;
        assert rs[j + 1] == r;
      }
    }
  }

  /** A run that ends before every run of an ordered list can go in front of it. */
  lemma OrderedCons(r: Run, rest: seq<Run>)
    ensures Ordered(rest) && (forall x :: x in rest ==> r.hi <= x.lo) ==> Ordered([r] + rest)
  {
    if Ordered(rest) && forall x :: x in rest ==> r.hi <= x.lo {
      var all := [r] + rest;
      forall k, k' | 0 <= k < k' < |all| ensures all[k].hi <= all[k'].lo {
        assert all[k'] == rest[k' - 1];
        if k > 0 {
          assert all[k] == rest[k - 1];
        }
      }
    }
  }

  /** A run holds no change after its first row; the first run starts at row 0,
    * every later one at a change, right where the one before it ends; the last
    * ends at the last row. */
  lemma RunInterior(mask: seq<bool>, k: nat)
    requires k < |Runs(mask)|
    ensures var r := Runs(mask)[k];
      && r.lo < r.hi <= |mask|
      && (forall i :: r.lo < i < r.hi ==> !mask[i])
      && (k == 0 ==> r.lo == 0)
      && (k > 0 ==> Runs(mask)[k - 1].hi == r.lo && mask[r.lo])
      && (k + 1 < |Runs(mask)| ==> Runs(mask)[k + 1].lo == r.hi)
      && (k + 1 == |Runs(mask)| ==> r.hi == |mask|)
  {
    RunsTile(mask);
  }

  /** Every row lies in some run (a mask whose first entry is true, as every
    * change mask's is). */
  lemma RowHasRun(mask: seq<bool>, i: nat) returns (j: nat)
    requires i < |mask| && mask[0]
    ensures j < |Runs(mask)| && InRun(Runs(mask)[j], i)
  {
    RowInItsRun(mask);
    j := GroupIds(mask)[i] - 1;
  }

  /** Inside a run consecutive keys never differ. */
  lemma NoChangeWithinRun<K>(keys: seq<K>, differs: (K, K) -> bool, k: nat)
    requires k < |Runs(ChangeMask(keys, differs))|
    ensures var r := Runs(ChangeMask(keys, differs))[k];
      r.lo < r.hi <= |keys| && forall j, j' :: r.lo <= j && j' == j + 1 && j' < r.hi ==> !differs(keys[j], keys[j'])
  {
    var mask := ChangeMask(keys, differs);
    RunInterior(mask, k);
    var r := Runs(mask)[k];
    forall j, j' | r.lo <= j && j' == j + 1 && j' < r.hi ensures !differs(keys[j], keys[j']) {
      ChangeMaskAt(keys, differs, j, j');
    }
  }

  /** A key that never differs from its predecessor inside `r` is constant on `r`,
    * provided `differs` is at least `!=`. */
  lemma {:induction false} ConstantOnRun<K>(keys: seq<K>, differs: (K, K) -> bool, r: Run, i: nat)
    requires forall a, b :: differs(a, b) || a == b
    requires r.lo <= i < r.hi <= |keys|
    requires forall j, j' :: r.lo <= j && j' == j + 1 && j' < r.hi ==> !differs(keys[j], keys[j'])
    ensures keys[i] == keys[r.lo]
    decreases i
  {
    if i > r.lo {
      ConstantOnRun(keys, differs, r, i - 1);
      assert !differs(keys[i - 1], keys[i]);
    }
  }

  /** A run ends at a change of key, unless it ends at the last row. */
  lemma RunEndsAtChange<K>(keys: seq<K>, differs: (K, K) -> bool, k: nat)
    requires k < |Runs(ChangeMask(keys, differs))|
    ensures var r := Runs(ChangeMask(keys, differs))[k];
      r.lo < r.hi <= |keys| && (r.hi < |keys| ==> differs(keys[r.hi - 1], keys[r.hi]))
  {
    var mask := ChangeMask(keys, differs);
    var rs := Runs(mask);
    RunInterior(mask, k);
    var hi := rs[k].hi;
    if hi < |keys| {
      assert k + 1 < |rs|;
      RunInterior(mask, k + 1);
      assert rs[k + 1].lo == hi && mask[hi];
      ChangeMaskAt(keys, differs, hi - 1, hi);
    }
  }

  /** Consecutive runs are separated by a change of key. */
  lemma RunsSplitAtChanges<K>(keys: seq<K>, differs: (K, K) -> bool, k: nat)
    requires 0 < k < |Runs(ChangeMask(keys, differs))|
    ensures var r := Runs(ChangeMask(keys, differs))[k];
      0 < r.lo < |keys| && differs(keys[r.lo - 1], keys[r.lo])
  {
    var mask := ChangeMask(keys, differs);
    RunInterior(mask, k);
    RunInterior(mask, k - 1);
    var lo := Runs(mask)[k].lo;
    assert 0 < lo < |keys| && mask[lo];
    ChangeMaskAt(keys, differs, lo - 1, lo);
    assert differs(keys[lo - 1], keys[lo]);
  }
}
