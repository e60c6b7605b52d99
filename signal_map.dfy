/**
 * Signal reference mapping: the signal list is left-joined to the OHE master
 * on the trimmed string form of `OHE FROM` and `OHEMas`, and the rows without
 * coordinates are dropped.
 *
 * `astype(str)` turns a missing cell into the text "nan" (so a signal with a
 * missing `OHE FROM` joins a master row with a missing `OHEMas`); `str.strip()`
 * removes leading and trailing whitespace as Python's `str.isspace` defines it.
 */
module SignalMap {
  import opened Wrappers

  /** One row of the signal list: `SIGNAL NAME` and `OHE FROM`. */
  datatype SignalRow = SignalRow(name: string, oheFrom: Option<string>)

  /** One row of the OHE master: `OHEMas`, `Latitude`, `Longitude`. */
  datatype MasterRow = MasterRow(oheMas: Option<string>, lat: Option<real>, lon: Option<real>)

  /** One row of `merged`: the signal's name and trimmed key, and the master's
    * trimmed key and coordinates, all missing when no master row matched. */
  datatype MergedRow = MergedRow(name: string, oheFrom: string, oheMas: Option<string>, lat: Option<real>, lon: Option<real>)

  /** Python's whitespace: the characters for which `str.isspace` is true. */
  predicate IsSpace(c: char)
  {
    var n := c as int;
    || 9 <= n <= 13 || 28 <= n <= 32 || n == 0x85 || n == 0xA0 || n == 0x1680
    || 0x2000 <= n <= 0x200A || n == 0x2028 || n == 0x2029 || n == 0x202F
    || n == 0x205F || n == 0x3000
  }

  /** The text with its leading whitespace removed. */
  function TrimStart(s: string): (r: string)
    decreases |s|
    ensures |r| <= |s| && r == s[|s| - |r|..]
    ensures forall i :: 0 <= i < |s| - |r| ==> IsSpace(s[i])
    ensures r == [] || !IsSpace(r[0])
  {
    if s != [] && IsSpace(s[0]) then TrimStart(s[1..]) else s
  }

  /** The text with its trailing whitespace removed. */
  function TrimEnd(s: string): (r: string)
    decreases |s|
    ensures |r| <= |s| && r == s[..|r|]
    ensures forall i :: |r| <= i < |s| ==> IsSpace(s[i])
    ensures r == [] || !IsSpace(r[|r| - 1])
  {
    if s != [] && IsSpace(s[|s| - 1]) then TrimEnd(s[..|s| - 1]) else s
  }

  /** Only whitespace lies before position `a` and from position `b` on. */
  predicate SpaceOutside(s: string, a: int, b: int)
  {
    && 0 <= a <= b <= |s|
    && (forall i :: 0 <= i < a ==> IsSpace(s[i]))
    && (forall i :: b <= i < |s| ==> IsSpace(s[i]))
  }

  /** Cutting whitespace off the front and then off the back leaves a middle slice. */
  lemma TrimmedSlice(s: string, t: string, r: string)
    requires |t| <= |s| && t == s[|s| - |t|..] && forall i :: 0 <= i < |s| - |t| ==> IsSpace(s[i])
    requires t == [] || !IsSpace(t[0])
    requires |r| <= |t| && r == t[..|r|] && forall i :: |r| <= i < |t| ==> IsSpace(t[i])
    requires r == [] || !IsSpace(r[|r| - 1])
    ensures var a := |s| - |t|; SpaceOutside(s, a, a + |r|) && r == s[a..a + |r|]
    ensures r == [] || (!IsSpace(r[0]) && !IsSpace(r[|r| - 1]))
  {
    var a := |s| - |t|;
    forall i | a + |r| <= i < |s| ensures IsSpace(s[i]) {
      assert s[i] == t[i - a];
    }
    assert r != [] ==> r[0] == t[0];
  }

  /** `str.strip()`: a middle slice of the text, with only whitespace cut off
    * on either side, that neither starts nor ends with whitespace. */
  function Strip(s: string): (r: string)
    ensures exists a, b :: SpaceOutside(s, a, b) && r == s[a..b]
    ensures r == [] || (!IsSpace(r[0]) && !IsSpace(r[|r| - 1]))
  {
    var t := TrimStart(s);
    var r := TrimEnd(t);
    TrimmedSlice(s, t, r);
    r
  }

  /** On text that neither starts nor ends with whitespace, trimming changes nothing. */
  lemma StripTrimmed(s: string)
    requires s == [] || (!IsSpace(s[0]) && !IsSpace(s[|s| - 1]))
    ensures Strip(s) == s
  {
    assert TrimStart(s) == s;
    assert TrimEnd(s) == s;
  }

  /** Trimming twice is trimming once. */
  lemma StripIdempotent(s: string)
    ensures Strip(Strip(s)) == Strip(s)
  {
    StripTrimmed(Strip(s));
  }

  /** `astype(str)`: a missing cell becomes the text "nan". */
  function AsText(cell: Option<string>): (t: string)
    ensures cell.Some? ==> t == cell.value
    ensures cell.None? ==> t == "nan"
  {
    match cell
    case Some(v) => v
    case None => "nan"
  }

  /** The join key of a cell, after `astype(str).str.strip()`. */
  function CleanKey(cell: Option<string>): string
  {
    Strip(AsText(cell))
  }

  /** The master rows whose key equals `key`, in master order. */
  function Matches(key: string, master: seq<MasterRow>): (ms: seq<MasterRow>)
    decreases |master|
    ensures |ms| <= |master|
    ensures forall m :: m in ms <==> m in master && CleanKey(m.oheMas) == key
  {
    if master == [] then []
    else
      var rest := Matches(key, master[1..]);
      assert forall m :: m in master <==> m == master[0] || m in master[1..];
      if CleanKey(master[0].oheMas) == key then [master[0]] + rest else rest
  }

  /** Each master row of equal key is a match as often as it occurs in the
    * master, and no other row is a match. */
  lemma {:induction false} MatchesCounts(key: string, master: seq<MasterRow>)
    ensures forall m :: multiset(Matches(key, master))[m] == if CleanKey(m.oheMas) == key then multiset(master)[m] else 0
    decreases |master|
  {
    if master != [] {
      MatchesCounts(key, master[1..]);
      assert master == [master[0]] + master[1..];
    }
  }

  /** The merged row of signal `s` and the master row `m` it matched. */
  function Joined(s: SignalRow, m: MasterRow): MergedRow
  {
    MergedRow(s.name, CleanKey(s.oheFrom), Some(CleanKey(m.oheMas)), m.lat, m.lon)
  }

  /** The merged row of a signal that matched no master row. */
  function Unmatched(s: SignalRow): MergedRow
  {
    MergedRow(s.name, CleanKey(s.oheFrom), None, None, None)
  }

  /** The rows a left join yields for `s`, given as the members of `rows`. */
  ghost predicate JoinRowsOf(s: SignalRow, master: seq<MasterRow>, rows: seq<MergedRow>)
  {
    forall row :: row in rows <==>
      (Matches(CleanKey(s.oheFrom), master) == [] && row == Unmatched(s)) ||
      (exists m :: m in master && CleanKey(m.oheMas) == CleanKey(s.oheFrom) && row == Joined(s, m))
  }

  /** Without a match, the single row without master columns is the join. */
  lemma UnmatchedRowIsJoin(s: SignalRow, master: seq<MasterRow>)
    requires Matches(CleanKey(s.oheFrom), master) == []
    ensures JoinRowsOf(s, master, [Unmatched(s)])
  {
    var key := CleanKey(s.oheFrom);
    assert forall m :: m in master && CleanKey(m.oheMas) == key ==> m in Matches(key, master);
  }

  /** With matches, the rows joining `s` with each of them are the join. */
  lemma JoinedRowsAreJoin(s: SignalRow, master: seq<MasterRow>, rows: seq<MergedRow>)
    requires var ms := Matches(CleanKey(s.oheFrom), master);
      ms != [] && |rows| == |ms| && forall i :: 0 <= i < |ms| ==> rows[i] == Joined(s, ms[i])
    ensures JoinRowsOf(s, master, rows)
  {
    var ms := Matches(CleanKey(s.oheFrom), master);
    forall m | m in ms ensures Joined(s, m) in rows {
      var i :| 0 <= i < |ms| && ms[i] == m;
      assert rows[i] == Joined(s, m);
    }
  }

  /** The rows that a left join produces for one signal: one per matching
    * master row, or a single row without master columns if none matches. */
  function JoinOne(s: SignalRow, master: seq<MasterRow>): (rows: seq<MergedRow>)
    ensures |rows| >= 1
    ensures JoinRowsOf(s, master, rows)
    ensures var ms := Matches(CleanKey(s.oheFrom), master);
      && (ms == [] ==> rows == [Unmatched(s)])
      && (ms != [] ==> |rows| == |ms| && forall i :: 0 <= i < |ms| ==> rows[i] == Joined(s, ms[i]))
  {
    var ms := Matches(CleanKey(s.oheFrom), master);
    if ms == [] then
      UnmatchedRowIsJoin(s, master);
      [Unmatched(s)]
    else
      var rows := seq(|ms|, i requires 0 <= i < |ms| => Joined(s, ms[i]));
      JoinedRowsAreJoin(s, master, rows);
      rows
  }

  /** `sig_df.merge(ohe_df, left_on='OHE FROM', right_on='OHEMas', how='left')`:
    * the rows of every signal, signals in their original order. */
  function LeftMerge(signals: seq<SignalRow>, master: seq<MasterRow>): (merged: seq<MergedRow>)
    decreases |signals|
    ensures |merged| >= |signals|
  {
    if signals == [] then [] else JoinOne(signals[0], master) + LeftMerge(signals[1..], master)
  }

  /** The merged rows are exactly the join rows of the signals. */
  lemma {:induction false} LeftMergeMembers(signals: seq<SignalRow>, master: seq<MasterRow>)
    ensures forall row :: row in LeftMerge(signals, master) <==> exists s :: s in signals && row in JoinOne(s, master)
    decreases |signals|
  {
    if signals != [] {
      LeftMergeMembers(signals[1..], master);
      assert forall s :: s in signals <==> s == signals[0] || s in signals[1..];
    }
  }

  /** The merge of two signal lists one after the other is the merge of the
    * first followed by the merge of the second. */
  lemma {:induction false} LeftMergeAppend(a: seq<SignalRow>, b: seq<SignalRow>, master: seq<MasterRow>)
    ensures LeftMerge(a + b, master) == LeftMerge(a, master) + LeftMerge(b, master)
    decreases |a|
  {
    if a == [] {
      EmptyAppend(b);
    } else {
      LeftMergeAppend(a[1..], b, master);
      LeftMergeAppendStep(a, b, master);
    }
  }

  /** The inductive step of `LeftMergeAppend`. */
  lemma LeftMergeAppendStep(a: seq<SignalRow>, b: seq<SignalRow>, master: seq<MasterRow>)
    requires a != [] && LeftMerge(a[1..] + b, master) == LeftMerge(a[1..], master) + LeftMerge(b, master)
    ensures LeftMerge(a + b, master) == LeftMerge(a, master) + LeftMerge(b, master)
  {
    SplitFirst(a, b);
    LeftMergeCons(a[0], a[1..] + b, master);
    LeftMergeCons(a[0], a[1..], master);
    AppendAssoc(JoinOne(a[0], master), LeftMerge(a[1..], master), LeftMerge(b, master));
  }

  /** The merge of a signal list is the first signal's rows followed by the merge of the rest. */
  lemma LeftMergeCons(s: SignalRow, rest: seq<SignalRow>, master: seq<MasterRow>)
    ensures LeftMerge([s] + rest, master) == JoinOne(s, master) + LeftMerge(rest, master)
  {
    var c := [s] + rest;
    assert c[0] == s && c[1..] == rest;
  }

  /** A non-empty list is its first element followed by the rest. */
  lemma SplitFirst<T>(a: seq<T>, b: seq<T>)
    requires a != []
    ensures a == [a[0]] + a[1..] && a + b == [a[0]] + (a[1..] + b)
  {
  }

  /** The empty list is a left unit of concatenation. */
  lemma EmptyAppend<T>(b: seq<T>)
    ensures [] + b == b
  {
  }

  /** Concatenation is associative. */
  lemma AppendAssoc<T>(x: seq<T>, y: seq<T>, z: seq<T>)
    ensures x + (y + z) == (x + y) + z
  {
  }

  /** A single signal merges into exactly its own join rows. */
  lemma LeftMergeSingle(s: SignalRow, master: seq<MasterRow>)
    ensures LeftMerge([s], master) == JoinOne(s, master)
  {
    assert [s][1..] == [];
  }

  /** `merged.dropna(subset=['Latitude', 'Longitude'])`, order kept. */
  function DropMissingLatLon(merged: seq<MergedRow>): (kept: seq<MergedRow>)
    decreases |merged|
    ensures |kept| <= |merged|
    ensures forall row :: row in kept <==> row in merged && row.lat.Some? && row.lon.Some?
  {
    if merged == [] then []
    else
      var rest := DropMissingLatLon(merged[1..]);
      assert forall row :: row in merged <==> row == merged[0] || row in merged[1..];
      if merged[0].lat.Some? && merged[0].lon.Some? then [merged[0]] + rest else rest
  }

  /** `merged.dropna(subset=['Latitude'])`, order kept. */
  function DropMissingLat(merged: seq<MergedRow>): (kept: seq<MergedRow>)
    decreases |merged|
    ensures |kept| <= |merged|
    ensures forall row :: row in kept <==> row in merged && row.lat.Some?
  {
    if merged == [] then []
    else
      var rest := DropMissingLat(merged[1..]);
      assert forall row :: row in merged <==> row == merged[0] || row in merged[1..];
      if merged[0].lat.Some? then [merged[0]] + rest else rest
  }

  /** Each row with both coordinates is kept as often as it is merged, and no other row. */
  lemma {:induction false} DropMissingLatLonCounts(merged: seq<MergedRow>)
    ensures var kept := DropMissingLatLon(merged);
      forall row :: multiset(kept)[row] == if row.lat.Some? && row.lon.Some? then multiset(merged)[row] else 0
    decreases |merged|
  {
    if merged != [] {
      DropMissingLatLonCounts(merged[1..]);
      assert merged == [merged[0]] + merged[1..];
    }
  }

  /** Each row with a latitude is kept as often as it is merged, and no other row. */
  lemma {:induction false} DropMissingLatCounts(merged: seq<MergedRow>)
    ensures var kept := DropMissingLat(merged);
      forall row :: multiset(kept)[row] == if row.lat.Some? then multiset(merged)[row] else 0
    decreases |merged|
  {
    if merged != [] {
      DropMissingLatCounts(merged[1..]);
      assert merged == [merged[0]] + merged[1..];
    }
  }

  /** `signals_mapped` in app.py. */
  function AppMapped(signals: seq<SignalRow>, master: seq<MasterRow>): (mapped: seq<MergedRow>)
    ensures forall row :: row in mapped ==> row.lat.Some? && row.lon.Some?
  {
    DropMissingLatLon(LeftMerge(signals, master))
  }

  /** `mapped_sigs` in streamlit_app.py. */
  function StreamlitMapped(signals: seq<SignalRow>, master: seq<MasterRow>): (mapped: seq<MergedRow>)
    ensures forall row :: row in mapped ==> row.lat.Some?
  {
    DropMissingLat(LeftMerge(signals, master))
  }

  /** The left join never loses a signal: every signal has at least one merged row. */
  lemma EverySignalMerged(signals: seq<SignalRow>, master: seq<MasterRow>, s: SignalRow)
    requires s in signals
    ensures exists row :: row in LeftMerge(signals, master) && row.name == s.name && row.oheFrom == CleanKey(s.oheFrom)
  {
    var rows := JoinOne(s, master);
    LeftMergeMembers(signals, master);
    assert rows[0] in rows;
  }

  /** The mapped signals of app.py are exactly the joins of a signal with a master
    * row of equal trimmed key whose two coordinates are present. */
  lemma AppMappedExactly(signals: seq<SignalRow>, master: seq<MasterRow>, row: MergedRow)
    ensures row in AppMapped(signals, master) <==>
      exists s, m :: s in signals && m in master && CleanKey(m.oheMas) == CleanKey(s.oheFrom) &&
        m.lat.Some? && m.lon.Some? && row == Joined(s, m)
  {
    LeftMergeMembers(signals, master);
    if row in AppMapped(signals, master) {
      var s :| s in signals && row in JoinOne(s, master);
      assert row != Unmatched(s);
    }
  }

  /** Every mapped signal of app.py has both coordinates, and a key that some
    * master row has: a signal whose key no master row has never appears. */
  lemma AppMappedHaveCoordinates(signals: seq<SignalRow>, master: seq<MasterRow>, row: MergedRow)
    requires row in AppMapped(signals, master)
    ensures row.lat.Some? && row.lon.Some?
    ensures exists m :: m in master && CleanKey(m.oheMas) == row.oheFrom
  {
    AppMappedExactly(signals, master, row);
  }

  /** An empty master maps no signal. */
  lemma EmptyMasterMapsNothing(signals: seq<SignalRow>)
    ensures AppMapped(signals, []) == []
    ensures StreamlitMapped(signals, []) == []
  {
    var a, b := AppMapped(signals, []), StreamlitMapped(signals, []);
    if a != [] {
      AppMappedExactly(signals, [], a[0]);
    }
    if b != [] {
      StreamlitMappedExactly(signals, [], b[0]);
    }
  }

  /** The mapped signals of streamlit_app.py are exactly the joins of a signal with
    * a master row of equal trimmed key whose latitude is present. */
  lemma StreamlitMappedExactly(signals: seq<SignalRow>, master: seq<MasterRow>, row: MergedRow)
    ensures row in StreamlitMapped(signals, master) <==>
      exists s, m :: s in signals && m in master && CleanKey(m.oheMas) == CleanKey(s.oheFrom) &&
        m.lat.Some? && row == Joined(s, m)
  {
    LeftMergeMembers(signals, master);
    if row in StreamlitMapped(signals, master) {
      var s :| s in signals && row in JoinOne(s, master);
      assert row != Unmatched(s);
    }
  }
}
