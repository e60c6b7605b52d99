/**
 * Signal proximity and the speed check at signals (app.py).
 *
 * For every mapped signal the telemetry is narrowed to the points inside a box
 * of 0.01 degrees on each side of the signal, bounds included; among those the
 * first point of least distance is taken, and it is reported only when it lies
 * strictly closer than 200 metres. The distance function is a parameter: the
 * matcher is stated for any function, and nothing is assumed about it.
 */
module Proximity {
  import opened Wrappers
  import opened Telemetry
  import opened SignalMap

  /** One row of `results`: `Signal`, `Pass Time`, `Speed`, `Distance to Signal`. */
  datatype Pass = Pass(signal: string, passTime: int, speed: real, distance: real)

  /** A distance in metres between (lat1, lon1) and (lat2, lon2). */
  type DistanceFn = (real, real, real, real) -> real

  /** Half the side of the search box, in degrees. */
  const BoxHalfWidth: real := 0.01

  /** The largest distance, exclusive, at which a point counts as passing a signal. */
  const MatchRadius: real := 200.0

  /** The two `between` filters: the point lies in the inclusive box around the
    * signal. A signal without coordinates has an empty box (every comparison
    * with a missing value is false). */
  predicate InBox(p: Point, sig: MergedRow)
  {
    && sig.lat.Some? && sig.lon.Some?
    && sig.lat.value - BoxHalfWidth <= p.lat <= sig.lat.value + BoxHalfWidth
    && sig.lon.value - BoxHalfWidth <= p.lon <= sig.lon.value + BoxHalfWidth
  }

  /** `haversine_vectorized(point, signal)`. */
  function DistTo(p: Point, sig: MergedRow, dist: DistanceFn): real
    requires sig.lat.Some? && sig.lon.Some?
  {
    dist(p.lat, p.lon, sig.lat.value, sig.lon.value)
  }

  /** `nearby['dist'].idxmin()`: the position of the first point in the box at
    * the least distance, or `None` when the box is empty. */
  function Closest(points: seq<Point>, sig: MergedRow, dist: DistanceFn): (c: Option<nat>)
    decreases |points|
    ensures c.Some? <==> exists i :: 0 <= i < |points| && InBox(points[i], sig)
    ensures c.Some? ==> c.value < |points| && InBox(points[c.value], sig)
    ensures c.Some? ==> forall i :: 0 <= i < |points| && InBox(points[i], sig) ==>
      DistTo(points[c.value], sig, dist) <= DistTo(points[i], sig, dist)
    ensures c.Some? ==> forall i :: 0 <= i < c.value && InBox(points[i], sig) ==>
      DistTo(points[c.value], sig, dist) < DistTo(points[i], sig, dist)
  {
    if points == [] then None
    else
      var n := |points| - 1;
      var prefix := points[..n];
      var best := Closest(prefix, sig, dist);
      assert forall i :: 0 <= i < n ==> prefix[i] == points[i];
      if !InBox(points[n], sig) then best
      else if best.None? then Some(n)
      else if DistTo(points[n], sig, dist) < DistTo(points[best.value], sig, dist) then Some(n)
      else best
  }

  /** The pass reported for one signal, if any: there is one exactly when the
    * box holds a point and the closest such point is strictly nearer than 200
    * metres, and it carries the time and speed of that point, the first point
    * of least distance. An empty box reports nothing. */
  function MatchSignal(points: seq<Point>, sig: MergedRow, dist: DistanceFn): (m: Option<Pass>)
    ensures m.Some? <==> ((exists i :: 0 <= i < |points| && InBox(points[i], sig)) &&
      DistTo(points[Closest(points, sig, dist).value], sig, dist) < MatchRadius)
    ensures (forall i :: 0 <= i < |points| ==> !InBox(points[i], sig)) ==> m.None?
    ensures var c := Closest(points, sig, dist);
      m.Some? ==>
        && m.value.signal == sig.name
        && m.value.passTime == points[c.value].time
        && m.value.speed == points[c.value].speed
        && m.value.distance == DistTo(points[c.value], sig, dist) < MatchRadius
        && InBox(points[c.value], sig)
        && (forall i :: 0 <= i < |points| && InBox(points[i], sig) ==> m.value.distance <= DistTo(points[i], sig, dist))
  {
    match Closest(points, sig, dist)
    case None => None
    case Some(i) =>
      var d := DistTo(points[i], sig, dist);
      if d < MatchRadius then Some(Pass(sig.name, points[i].time, points[i].speed, d)) else None
  }

  /** The passes of a list of signals, in signal order. */
  function MatchAll(signals: seq<MergedRow>, points: seq<Point>, dist: DistanceFn): (passes: seq<Pass>)
    decreases |signals|
    ensures |passes| <= |signals|
  {
    if signals == [] then []
    else
      var n := |signals| - 1;
      var m := MatchSignal(points, signals[n], dist);
      MatchAll(signals[..n], points, dist) + (if m.Some? then [m.value] else [])
  }

  /** The loop over `signals_mapped.iterrows()`, appending to `results`. */
  method MatchSignals(signals: seq<MergedRow>, points: seq<Point>, dist: DistanceFn) returns (results: seq<Pass>)
    ensures results == MatchAll(signals, points, dist)
  {
    results := [];
    for i := 0 to |signals|
      invariant results == MatchAll(signals[..i], points, dist)
    {
      var sig := signals[i];
      var m := MatchSignal(points, sig, dist);
      if m.Some? {
        results := results + [m.value];
      }
      assert signals[..i + 1][..i] == signals[..i];
    }
    assert signals[..|signals|] == signals;
  }

  /** At most one pass per signal, and every pass belongs to the signal at
    * its position, passes following the signal order. */
  lemma {:induction false} MatchAllOnePerSignal(signals: seq<MergedRow>, points: seq<Point>, dist: DistanceFn)
    ensures |MatchAll(signals, points, dist)| <= |signals|
    ensures forall p :: p in MatchAll(signals, points, dist) ==>
      exists j :: 0 <= j < |signals| && MatchSignal(points, signals[j], dist) == Some(p)
    decreases |signals|
  {
    if signals != [] {
      var n := |signals| - 1;
      var pre := signals[..n];
      MatchAllOnePerSignal(pre, points, dist);
      forall p | p in MatchAll(signals, points, dist)
        ensures exists j :: 0 <= j < |signals| && MatchSignal(points, signals[j], dist) == Some(p)
      {
        if p in MatchAll(pre, points, dist) {
          var j :| 0 <= j < n && MatchSignal(points, pre[j], dist) == Some(p);
          assert signals[j] == pre[j];
        } else {
          assert MatchSignal(points, signals[n], dist) == Some(p);
        }
      }
    }
  }

  /** Every signal that is reported appears among the passes. */
  lemma {:induction false} MatchAllComplete(signals: seq<MergedRow>, points: seq<Point>, dist: DistanceFn, j: nat, p: Pass)
    requires j < |signals| && MatchSignal(points, signals[j], dist) == Some(p)
    ensures p in MatchAll(signals, points, dist)
    decreases |signals|
  {
    var n := |signals| - 1;
    var rest := MatchAll(signals[..n], points, dist);
    if j < n {
      assert signals[..n][j] == signals[j];
      MatchAllComplete(signals[..n], points, dist, j, p);
      assert p in rest;
    } else {
      assert MatchSignal(points, signals[n], dist) == Some(p);
    }
  }

  /** Every pass lies strictly closer than 200 metres to its signal. */
  lemma PassesAreNear(signals: seq<MergedRow>, points: seq<Point>, dist: DistanceFn)
    ensures forall p :: p in MatchAll(signals, points, dist) ==> p.distance < MatchRadius
  {
    MatchAllOnePerSignal(signals, points, dist);
    forall p | p in MatchAll(signals, points, dist) ensures p.distance < MatchRadius {
      var j :| 0 <= j < |signals| && MatchSignal(points, signals[j], dist) == Some(p);
    }
  }

  /** `limit = 60 if train_type == "Coaching" else 40`. */
  function Limit(trainType: string): (limit: int)
    ensures trainType == "Coaching" ==> limit == 60
    ensures trainType != "Coaching" ==> limit == 40
  {
    if trainType == "Coaching" then 60 else 40
  }

  /** `sig_res_df[sig_res_df['Speed'] > limit]`, order kept. */
  function Violations(passes: seq<Pass>, limit: int): (v: seq<Pass>)
    decreases |passes|
    ensures |v| <= |passes|
    ensures forall p :: p in v <==> p in passes && p.speed > limit as real
  {
    if passes == [] then []
    else
      var rest := Violations(passes[1..], limit);
      assert forall p :: p in passes <==> p == passes[0] || p in passes[1..];
      if passes[0].speed > limit as real then [passes[0]] + rest else rest
  }

  /** Each fast pass is a violation as often as it is a pass, and no other pass is one. */
  lemma {:induction false} ViolationsCounts(passes: seq<Pass>, limit: int)
    ensures var v := Violations(passes, limit);
      forall p :: multiset(v)[p] == if p.speed > limit as real then multiset(passes)[p] else 0
    decreases |passes|
  {
    if passes != [] {
      ViolationsCounts(passes[1..], limit);
      assert passes == [passes[0]] + passes[1..];
    }
  }

  /** `xs` is `ys` with some elements left out, order kept. */
  predicate Subsequence<T(==)>(xs: seq<T>, ys: seq<T>)
    decreases |ys|
  {
    if xs == [] then true
    else if ys == [] then false
    else if xs[0] == ys[0] then Subsequence(xs[1..], ys[1..])
    else Subsequence(xs, ys[1..])
  }

  /** The violations are the passes with some left out, in the same order. */
  lemma {:induction false} ViolationsAreSubsequence(passes: seq<Pass>, limit: int)
    ensures Subsequence(Violations(passes, limit), passes)
    decreases |passes|
  {
    if passes != [] {
      ViolationsAreSubsequence(passes[1..], limit);
      var rest := Violations(passes[1..], limit);
      if passes[0].speed > limit as real {
        assert Violations(passes, limit)[1..] == rest;
      } else {
        SubsequenceOfTail(rest, passes);
      }
    }
  }

  /** A subsequence of the tail is a subsequence of the whole. */
  lemma {:induction false} SubsequenceOfTail<T>(xs: seq<T>, ys: seq<T>)
    requires ys != [] && Subsequence(xs, ys[1..])
    ensures Subsequence(xs, ys)
    decreases |ys|, 0
  {
    if xs != [] && xs[0] == ys[0] {
      DropHead(xs, ys[1..]);
    }
  }

  /** Leaving out the first element keeps a subsequence. */
  lemma {:induction false} DropHead<T>(xs: seq<T>, zs: seq<T>)
    requires xs != [] && Subsequence(xs, zs)
    ensures Subsequence(xs[1..], zs)
    decreases |zs|, 1
  {
    if xs[0] == zs[0] {
      SubsequenceOfTail(xs[1..], zs);
    } else {
      DropHead(xs, zs[1..]);
      SubsequenceOfTail(xs[1..], zs);
    }
  }
}
