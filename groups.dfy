/**
 * Groups that survive a row filter: `df[keep(key)].groupby(counter)`, where
 * the counter is the run counter of `key` and the filter looks only at the
 * key. Both scripts use this shape: the stoppage table keeps the rows whose
 * `is_stopped` is true, and the section table drops the rows whose station
 * code is missing (which `groupby` does on its own).
 */
module Groups {
  import opened Segmentation

  /** The filter applied to every row. */
  function Marks<K>(keys: seq<K>, keep: K -> bool): (marks: seq<bool>)
    ensures |marks| == |keys|
    ensures forall i :: 0 <= i < |keys| ==> marks[i] == keep(keys[i])
  {
    seq(|keys|, i requires 0 <= i < |keys| => keep(keys[i]))
  }

  /** The runs of `keys` whose rows pass the filter, in group order. */
  function KeptRuns<K>(keys: seq<K>, differs: (K, K) -> bool, keep: K -> bool): (rs: seq<Run>)
    ensures forall k :: 0 <= k < |rs| ==> rs[k].lo < rs[k].hi <= |keys|
    ensures Ordered(rs)
  {
    var mask := ChangeMask(keys, differs);
    RunsOrdered(mask);
    KeepRuns(Runs(mask), Marks(keys, keep))
  }

  /** A kept run is one of the runs of `keys`, and its first row passes the filter. */
  lemma KeptRunIsRun<K>(keys: seq<K>, differs: (K, K) -> bool, keep: K -> bool, k: nat) returns (j: nat)
    requires k < |KeptRuns(keys, differs, keep)|
    ensures j < |Runs(ChangeMask(keys, differs))|
    ensures Runs(ChangeMask(keys, differs))[j] == KeptRuns(keys, differs, keep)[k]
    ensures keep(keys[KeptRuns(keys, differs, keep)[k].lo])
  {
    var mask := ChangeMask(keys, differs);
    var r := KeptRuns(keys, differs, keep)[k];
    assert r in Runs(mask) && Marks(keys, keep)[r.lo];
    j :| 0 <= j < |Runs(mask)| && Runs(mask)[j] == r;
  }

  /** Every row of a kept run has the key of its first row, and passes the filter. */
  lemma KeptRunConstant<K>(keys: seq<K>, differs: (K, K) -> bool, keep: K -> bool, k: nat)
    requires forall a, b :: differs(a, b) || a == b
    requires k < |KeptRuns(keys, differs, keep)|
    ensures var r := KeptRuns(keys, differs, keep)[k];
      forall i :: InRun(r, i) ==> keys[i] == keys[r.lo] && keep(keys[i])
  {
    var r := KeptRuns(keys, differs, keep)[k];
    var j := KeptRunIsRun(keys, differs, keep, k);
    NoChangeWithinRun(keys, differs, j);
    forall i | InRun(r, i) ensures keys[i] == keys[r.lo] && keep(keys[i]) {
      ConstantOnRun(keys, differs, r, i);
    }
  }

  /** A kept run starts at a change of key, unless it starts at row 0, and its
    * first row passes the filter. */
  lemma KeptRunStartsAtChange<K>(keys: seq<K>, differs: (K, K) -> bool, keep: K -> bool, k: nat)
    requires k < |KeptRuns(keys, differs, keep)|
    ensures var r := KeptRuns(keys, differs, keep)[k];
      && keep(keys[r.lo])
      && (r.lo > 0 ==> differs(keys[r.lo - 1], keys[r.lo]))
  {
    var r := KeptRuns(keys, differs, keep)[k];
    var j := KeptRunIsRun(keys, differs, keep, k);
    if r.lo > 0 {
      RunInterior(ChangeMask(keys, differs), j);
      RunsSplitAtChanges(keys, differs, j);
    }
  }

  /** A kept run ends at a change of key, unless it ends at the last row. */
  lemma KeptRunEndsAtChange<K>(keys: seq<K>, differs: (K, K) -> bool, keep: K -> bool, k: nat)
    requires k < |KeptRuns(keys, differs, keep)|
    ensures var r := KeptRuns(keys, differs, keep)[k];
      r.hi < |keys| ==> differs(keys[r.hi - 1], keys[r.hi])
  {
    var j := KeptRunIsRun(keys, differs, keep, k);
    RunEndsAtChange(keys, differs, j);
  }

  /** Every row that passes the filter lies in a kept run. */
  lemma KeptRowInKeptRun<K>(keys: seq<K>, differs: (K, K) -> bool, keep: K -> bool, i: nat)
    requires forall a, b :: differs(a, b) || a == b
    requires i < |keys| && keep(keys[i])
    ensures exists k :: 0 <= k < |KeptRuns(keys, differs, keep)| && InRun(KeptRuns(keys, differs, keep)[k], i)
  {
    var mask := ChangeMask(keys, differs);
    var all, rs := Runs(mask), KeptRuns(keys, differs, keep);
    var j := RowHasRun(mask, i);
    var r := all[j];
    NoChangeWithinRun(keys, differs, j);
    ConstantOnRun(keys, differs, r, i);
    assert Marks(keys, keep)[r.lo];
    assert r in rs;
    var k :| 0 <= k < |rs| && rs[k] == r;
  }

  /** A kept run holds exactly the rows that pass the filter and carry the
    * counter of its first row: the group that `groupby` collects. */
  lemma KeptRunIsGroup<K>(keys: seq<K>, differs: (K, K) -> bool, keep: K -> bool, k: nat)
    requires forall a, b :: differs(a, b) || a == b
    requires k < |KeptRuns(keys, differs, keep)|
    ensures var r, ids := KeptRuns(keys, differs, keep)[k], GroupIds(ChangeMask(keys, differs));
      forall i :: 0 <= i < |keys| ==> (InRun(r, i) <==> keep(keys[i]) && ids[i] == ids[r.lo])
  {
    var mask := ChangeMask(keys, differs);
    var all, r := Runs(mask), KeptRuns(keys, differs, keep)[k];
    var j := KeptRunIsRun(keys, differs, keep, k);
    KeptRunConstant(keys, differs, keep, k);
    assert mask[0];
    RunsAreGroups(mask);
    assert InRun(all[j], r.lo);
  }

  /** Two consecutive kept rows whose keys do not differ are never split. */
  lemma NotSplitWithoutChange<K>(keys: seq<K>, differs: (K, K) -> bool, keep: K -> bool, i: nat)
    requires forall a, b :: differs(a, b) || a == b
    requires i + 1 < |keys| && keep(keys[i]) && !differs(keys[i], keys[i + 1])
    ensures exists k :: (0 <= k < |KeptRuns(keys, differs, keep)| &&
      InRun(KeptRuns(keys, differs, keep)[k], i) && InRun(KeptRuns(keys, differs, keep)[k], i + 1))
  {
    var rs := KeptRuns(keys, differs, keep);
    KeptRowInKeptRun(keys, differs, keep, i);
    var k :| 0 <= k < |rs| && InRun(rs[k], i);
    KeptRunEndsAtChange(keys, differs, keep, k);
  }
}
