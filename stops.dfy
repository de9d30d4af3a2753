/** Stop detection on a drawn route (annotateStops). The route is walked
    once; each point either joins the current cluster, when it lies within
    STOP_RADIUS_M of the cluster's running centroid, or closes that cluster
    and opens a new one at itself. A closed cluster becomes a stop when it
    has at least STOP_MIN_POINTS points spanning at least
    STOP_MIN_DURATION_MS. The great-circle distance is a parameter `dist`
    (in metres); coordinates are exact reals. */
module Stops {
  import opened Wrappers
  import opened Js
  import opened Timestamps
  import opened Readings

  datatype LatLng = LatLng(lat: real, lon: real)

  const StopDiameterM: real := 20.0
  const StopRadiusM: real := StopDiameterM / 2.0
  const StopMinPoints: nat := 3
  const StopMinDurationMs: int := 5 * 60 * 1000

  /** A run of `count` consecutive route points from index `start`, with the
      sums of their coordinates. */
  datatype Cluster = Cluster(start: nat, count: nat, sumLat: real, sumLon: real)
  {
    function End(): nat { start + count }

    /** The running centroid `[sumLat / count, sumLon / count]`. */
    function Center(): LatLng
      requires count > 0
    {
      LatLng(sumLat / count as real, sumLon / count as real)
    }
  }

  /** Point `q` joins cluster `c` when it lies within the radius of the
      running centroid. */
  predicate Joins(c: Cluster, q: LatLng, dist: (LatLng, LatLng) -> real)
    requires c.count > 0
  {
    dist(q, c.Center()) <= StopRadiusM
  }

  /** What addStopBadge receives: the cluster's index range, its centroid and
      the times of its first and last point. */
  datatype Stop = Stop(first: nat, last: nat, center: LatLng, startTs: Time, endTs: Time)

  // ------------------------------------------------------------ specification

  /** The clusters after the first `n` points: the closed ones and the open one. */
  function Fold(ll: seq<LatLng>, n: nat, dist: (LatLng, LatLng) -> real): (st: (seq<Cluster>, Cluster))
    requires 1 <= n <= |ll|
    ensures st.1.count >= 1 && st.1.End() == n
    decreases n
  {
    if n == 1 then ([], Cluster(0, 1, ll[0].lat, ll[0].lon))
    else
      var (closed, open) := Fold(ll, n - 1, dist);
      var q := ll[n - 1];
      if Joins(open, q, dist) then
        (closed, Cluster(open.start, open.count + 1, open.sumLat + q.lat, open.sumLon + q.lon))
      else
        (closed + [open], Cluster(n - 1, 1, q.lat, q.lon))
  }

  /** Every cluster of the route, the last (open) one included. */
  function Clusters(ll: seq<LatLng>, dist: (LatLng, LatLng) -> real): seq<Cluster>
  {
    if ll == [] then [] else Fold(ll, |ll|, dist).0 + [Fold(ll, |ll|, dist).1]
  }

  /** `dur >= STOP_MIN_DURATION_MS` with `dur` the difference of two Dates'
      times: false when either is an Invalid Date (NaN). */
  predicate LongEnough(startTs: Time, endTs: Time)
  {
    startTs.At? && endTs.At? && endTs.ms - startTs.ms >= StopMinDurationMs
  }

  /** flushCluster: the stop a closed cluster yields, if any. `times[k]` is
      the time of the point the closure reads at index `k`. An index past the
      end of `times` (which the dashboard never produces, its `times` being at
      least as long as the route) yields nothing. */
  function Flush(c: Cluster, times: seq<Time>): Option<Stop>
  {
    var endIdx := c.start + c.count - 1;
    if endIdx <= c.start || endIdx >= |times| then None
    else if c.count >= StopMinPoints && LongEnough(times[c.start], times[endIdx]) then
      Some(Stop(c.start, endIdx, c.Center(), times[c.start], times[endIdx]))
    else None
  }

  function OptionSeq(o: Option<Stop>): seq<Stop>
  {
    if o.Some? then [o.value] else []
  }

  /** The stops the clusters yield, in cluster order. */
  function Emitted(cs: seq<Cluster>, times: seq<Time>): seq<Stop>
  {
    if cs == [] then []
    else Emitted(cs[..|cs| - 1], times) + OptionSeq(Flush(cs[|cs| - 1], times))
  }

  // ------------------------------------------------------------ the procedure

  /** annotateStops(points, latlngs), with `ll` for `latlngs` and `times[k]`
      for the time of `points[k]`. Returns the stops in the order their
      badges are added. */
  method AnnotateStops(ll: seq<LatLng>, times: seq<Time>, dist: (LatLng, LatLng) -> real)
    returns (stops: seq<Stop>)
    ensures stops == Emitted(Clusters(ll, dist), times)
  {
    stops := [];
    if |ll| == 0 {
      return;
    }
    var clusterStart: nat := 0;
    var count: nat := 1;
    var sumLat := ll[0].lat;
    var sumLon := ll[0].lon;
    var center := LatLng(sumLat, sumLon);
    var i := 1;
    while i < |ll|
      invariant 1 <= i <= |ll|
      invariant Scan(ll, i, dist, times) == (stops, Cluster(clusterStart, count, sumLat, sumLon))
      invariant count >= 1 && center == Cluster(clusterStart, count, sumLat, sumLon).Center()
    {
      var q := ll[i];
      var d := dist(q, center);
      ghost var before := Cluster(clusterStart, count, sumLat, sumLon);
      if d <= StopRadiusM {
        assert Joins(before, q, dist);
        count := count + 1;
        sumLat := sumLat + q.lat;
        sumLon := sumLon + q.lon;
        center := LatLng(sumLat / count as real, sumLon / count as real);
        assert Scan(ll, i + 1, dist, times) == (stops, Cluster(clusterStart, count, sumLat, sumLon));
      } else {
        assert !Joins(before, q, dist);
        var open := Cluster(clusterStart, count, sumLat, sumLon);
        stops := stops + OptionSeq(Flush(open, times));
        clusterStart := i;
        count := 1;
        sumLat := q.lat;
        sumLon := q.lon;
        center := LatLng(q.lat, q.lon);
        OnePointCenter(Cluster(clusterStart, count, sumLat, sumLon));
        assert Scan(ll, i + 1, dist, times) == (stops, Cluster(clusterStart, count, sumLat, sumLon));
      }
      i := i + 1;
    }
    var open := Cluster(clusterStart, count, sumLat, sumLon);
    stops := stops + OptionSeq(Flush(open, times));
    ScanEmits(ll, dist, times);
  }

  /** The streaming form of the fold: the stops of the closed clusters and
      the open cluster after the first `n` points. */
  function Scan(ll: seq<LatLng>, n: nat, dist: (LatLng, LatLng) -> real, times: seq<Time>): (st: (seq<Stop>, Cluster))
    requires 1 <= n <= |ll|
    ensures st.1.count >= 1 && st.1.End() == n
    decreases n
  {
    if n == 1 then ([], Cluster(0, 1, ll[0].lat, ll[0].lon))
    else
      var (stops, open) := Scan(ll, n - 1, dist, times);
      var q := ll[n - 1];
      if Joins(open, q, dist) then
        (stops, Cluster(open.start, open.count + 1, open.sumLat + q.lat, open.sumLon + q.lon))
      else
        (stops + OptionSeq(Flush(open, times)), Cluster(n - 1, 1, q.lat, q.lon))
  }

  lemma {:induction false} ScanIsFold(ll: seq<LatLng>, n: nat, dist: (LatLng, LatLng) -> real, times: seq<Time>)
    requires 1 <= n <= |ll|
    ensures Scan(ll, n, dist, times) == (Emitted(Fold(ll, n, dist).0, times), Fold(ll, n, dist).1)
    decreases n
  {
    if n > 1 {
      ScanIsFold(ll, n - 1, dist, times);
      var (closed, open) := Fold(ll, n - 1, dist);
      EmittedSnoc(closed, open, times);
    }
  }

  lemma ScanEmits(ll: seq<LatLng>, dist: (LatLng, LatLng) -> real, times: seq<Time>)
    requires ll != []
    ensures var (stops, open) := Scan(ll, |ll|, dist, times);
            stops + OptionSeq(Flush(open, times)) == Emitted(Clusters(ll, dist), times)
  {
    ScanIsFold(ll, |ll|, dist, times);
    EmittedSnoc(Fold(ll, |ll|, dist).0, Fold(ll, |ll|, dist).1, times);
  }

  lemma OnePointCenter(c: Cluster)
    requires c.count == 1
    ensures c.Center() == LatLng(c.sumLat, c.sumLon)
  {
  }

  lemma EmittedSnoc(cs: seq<Cluster>, c: Cluster, times: seq<Time>)
    ensures Emitted(cs + [c], times) == Emitted(cs, times) + OptionSeq(Flush(c, times))
  {
    assert (cs + [c])[..|cs|] == cs;
  }

  // ------------------------------------------------------------ partition

  /** `cs` covers the indices `from` up to `to` with contiguous, non-empty runs. */
  predicate Chain(cs: seq<Cluster>, from: nat, to: nat)
    decreases |cs|
  {
    if cs == [] then from == to
    else cs[0].start == from && cs[0].count >= 1 && Chain(cs[1..], cs[0].End(), to)
  }

  lemma {:induction false} ChainAppend(cs: seq<Cluster>, from: nat, c: Cluster)
    requires Chain(cs, from, c.start) && c.count >= 1
    ensures Chain(cs + [c], from, c.End())
    decreases |cs|
  {
    if cs == [] {
      assert [c][1..] == [];
    } else {
      ChainAppend(cs[1..], cs[0].End(), c);
      assert (cs + [c])[1..] == cs[1..] + [c];
    }
  }

  lemma {:induction false} FoldChain(ll: seq<LatLng>, n: nat, dist: (LatLng, LatLng) -> real)
    requires 1 <= n <= |ll|
    ensures Chain(Fold(ll, n, dist).0, 0, Fold(ll, n, dist).1.start)
    decreases n
  {
    if n > 1 {
      FoldChain(ll, n - 1, dist);
      var (closed, open) := Fold(ll, n - 1, dist);
      if dist(ll[n - 1], open.Center()) > StopRadiusM {
        ChainAppend(closed, 0, open);
      }
    }
  }

  /** The clusters partition the route: contiguous, non-empty runs from index
      0 to the last point, so each point is in exactly one cluster and a
      cluster's count is its length. */
  lemma ClustersPartition(ll: seq<LatLng>, dist: (LatLng, LatLng) -> real)
    ensures Chain(Clusters(ll, dist), 0, |ll|)
  {
    if ll != [] {
      FoldChain(ll, |ll|, dist);
      var (closed, open) := Fold(ll, |ll|, dist);
      ChainAppend(closed, 0, open);
    }
  }

  /** A chain's clusters are in increasing index order without overlap. */
  lemma {:induction false} ChainOrdered(cs: seq<Cluster>, from: nat, to: nat)
    requires Chain(cs, from, to)
    ensures forall k :: 0 <= k < |cs| ==> from <= cs[k].start < cs[k].End() <= to
    ensures forall k :: 0 <= k < |cs| - 1 ==> cs[k].End() == cs[k + 1].start
    decreases |cs|
  {
    if cs != [] {
      ChainOrdered(cs[1..], cs[0].End(), to);
      forall k | 0 <= k < |cs| - 1 ensures cs[k].End() == cs[k + 1].start {
        if k > 0 {
          assert cs[k] == cs[1..][k - 1];
        }
      }
    }
  }

  // ------------------------------------------------------------ centroid and joining

  function SumLat(s: seq<LatLng>): real
  {
    if s == [] then 0.0 else SumLat(s[..|s| - 1]) + s[|s| - 1].lat
  }

  function SumLon(s: seq<LatLng>): real
  {
    if s == [] then 0.0 else SumLon(s[..|s| - 1]) + s[|s| - 1].lon
  }

  /** The mean position of a non-empty run of points. */
  function Mean(s: seq<LatLng>): LatLng
    requires s != []
  {
    LatLng(SumLat(s) / |s| as real, SumLon(s) / |s| as real)
  }

  predicate SumsMatch(ll: seq<LatLng>, c: Cluster)
  {
    c.End() <= |ll| && c.sumLat == SumLat(ll[c.start..c.End()]) && c.sumLon == SumLon(ll[c.start..c.End()])
  }

  lemma {:induction false} FoldSums(ll: seq<LatLng>, n: nat, dist: (LatLng, LatLng) -> real)
    requires 1 <= n <= |ll|
    ensures SumsMatch(ll, Fold(ll, n, dist).1)
    ensures forall c :: c in Fold(ll, n, dist).0 ==> SumsMatch(ll, c)
    decreases n
  {
    if n == 1 {
      FreshSums(ll, 0);
    } else {
      FoldSums(ll, n - 1, dist);
      var (closed, open) := Fold(ll, n - 1, dist);
      var q := ll[n - 1];
      if Joins(open, q, dist) {
        GrowSums(ll, open);
        assert Fold(ll, n, dist) == (closed, Cluster(open.start, open.count + 1, open.sumLat + q.lat, open.sumLon + q.lon));
      } else {
        FreshSums(ll, n - 1);
        assert Fold(ll, n, dist) == (closed + [open], Cluster(n - 1, 1, q.lat, q.lon));
      }
    }
  }

  /** A cluster of the single point `i` holds that point's coordinates. */
  lemma FreshSums(ll: seq<LatLng>, i: nat)
    requires i < |ll|
    ensures SumsMatch(ll, Cluster(i, 1, ll[i].lat, ll[i].lon))
  {
    SliceSnoc(ll, i, i);
    SumsSnoc([], ll[i]);
  }

  /** Growing a cluster by the next point adds that point to its sums. */
  lemma GrowSums(ll: seq<LatLng>, c: Cluster)
    requires SumsMatch(ll, c) && c.End() < |ll|
    ensures var q := ll[c.End()];
            SumsMatch(ll, Cluster(c.start, c.count + 1, c.sumLat + q.lat, c.sumLon + q.lon))
  {
    SliceSnoc(ll, c.start, c.End());
    SumsSnoc(ll[c.start..c.End()], ll[c.End()]);
  }

  /** `s[from..i + 1]` is `s[from..i]` followed by `s[i]`. */
  lemma SliceSnoc<T>(s: seq<T>, from: nat, i: nat)
    requires from <= i < |s|
    ensures s[from..i + 1] == s[from..i] + [s[i]]
  {
  }


  lemma SumsSnoc(s: seq<LatLng>, x: LatLng)
    ensures SumLat(s + [x]) == SumLat(s) + x.lat && SumLon(s + [x]) == SumLon(s) + x.lon
  {
    assert (s + [x])[..|s|] == s;
  }

  /** The running centroid of every cluster is the mean of its points. */
  lemma CentroidIsMean(ll: seq<LatLng>, dist: (LatLng, LatLng) -> real)
    ensures forall c :: c in Clusters(ll, dist) ==>
              c.count >= 1 && c.End() <= |ll| && c.Center() == Mean(ll[c.start..c.End()])
  {
    if ll != [] {
      FoldSums(ll, |ll|, dist);
      ClustersPartition(ll, dist);
      var cs := Clusters(ll, dist);
      ChainOrdered(cs, 0, |ll|);
      forall c | c in cs
        ensures c.count >= 1 && c.End() <= |ll| && c.Center() == Mean(ll[c.start..c.End()])
      {
        var k :| 0 <= k < |cs| && cs[k] == c;
        assert c in Fold(ll, |ll|, dist).0 || c == Fold(ll, |ll|, dist).1;
        MeanOfSums(ll, c);
      }
    }
  }

  lemma MeanOfSums(ll: seq<LatLng>, c: Cluster)
    requires c.count >= 1 && SumsMatch(ll, c)
    ensures c.Center() == Mean(ll[c.start..c.End()])
  {
  }

  /** Point `j` joined the cluster that starts at `s`: it lies within the
      radius of the mean of the points `s` up to `j - 1`. */
  predicate Joined(ll: seq<LatLng>, dist: (LatLng, LatLng) -> real, s: nat, j: nat)
    requires s < j < |ll|
  {
    dist(ll[j], Mean(ll[s..j])) <= StopRadiusM
  }

  /** Every point after a cluster's first joined it. */
  predicate JoinedInside(ll: seq<LatLng>, dist: (LatLng, LatLng) -> real, cs: seq<Cluster>)
  {
    forall k, j :: 0 <= k < |cs| && cs[k].start < j < cs[k].End() && cs[k].End() <= |ll| ==>
      Joined(ll, dist, cs[k].start, j)
  }

  /** Every cluster after the first started at a point too far from the
      previous cluster's centroid. */
  predicate SplitAtBoundaries(ll: seq<LatLng>, dist: (LatLng, LatLng) -> real, cs: seq<Cluster>)
  {
    forall k :: 0 < k < |cs| && cs[k - 1].start < cs[k].start < |ll| ==>
      !Joined(ll, dist, cs[k - 1].start, cs[k].start)
  }

  function FoldAll(ll: seq<LatLng>, n: nat, dist: (LatLng, LatLng) -> real): seq<Cluster>
    requires 1 <= n <= |ll|
  {
    Fold(ll, n, dist).0 + [Fold(ll, n, dist).1]
  }

  lemma FoldCovers(ll: seq<LatLng>, n: nat, dist: (LatLng, LatLng) -> real)
    requires 1 <= n <= |ll|
    ensures Chain(FoldAll(ll, n, dist), 0, n)
    ensures forall k :: 0 <= k < |FoldAll(ll, n, dist)| ==>
              FoldAll(ll, n, dist)[k].start < FoldAll(ll, n, dist)[k].End() <= n
  {
    FoldChain(ll, n, dist);
    ChainAppend(Fold(ll, n, dist).0, 0, Fold(ll, n, dist).1);
    ChainOrdered(FoldAll(ll, n, dist), 0, n);
  }

  /** One step of the fold: either the open cluster grew by the new point,
      which lay within the radius of its mean, or it was closed and a new
      one-point cluster opened. */
  lemma FoldStep(ll: seq<LatLng>, n: nat, dist: (LatLng, LatLng) -> real)
    requires 2 <= n <= |ll|
    ensures var po := Fold(ll, n - 1, dist).1;
            var cs := FoldAll(ll, n, dist);
            var old_cs := FoldAll(ll, n - 1, dist);
            && po.start < n - 1
            && (Joined(ll, dist, po.start, n - 1) ==>
                  |cs| == |old_cs| && cs[..|cs| - 1] == old_cs[..|cs| - 1]
                  && cs[|cs| - 1] == Cluster(po.start, po.count + 1, po.sumLat + ll[n - 1].lat, po.sumLon + ll[n - 1].lon))
            && (!Joined(ll, dist, po.start, n - 1) ==>
                  cs == old_cs + [Cluster(n - 1, 1, ll[n - 1].lat, ll[n - 1].lon)])
  {
    var (pc, po) := Fold(ll, n - 1, dist);
    JoinTest(ll, n, dist);
    assert (pc + [po])[..|pc|] == pc;
  }

  /** The fold's join test at point `n - 1` is `Joined`: the open cluster's
      running centre is the mean of its points. */
  lemma JoinTest(ll: seq<LatLng>, n: nat, dist: (LatLng, LatLng) -> real)
    requires 2 <= n <= |ll|
    ensures var po := Fold(ll, n - 1, dist).1;
            po.start < n - 1
            && (Joined(ll, dist, po.start, n - 1) <==> dist(ll[n - 1], po.Center()) <= StopRadiusM)
  {
    FoldSums(ll, n - 1, dist);
    MeanOfSums(ll, Fold(ll, n - 1, dist).1);
  }


  lemma {:induction false} FoldInside(ll: seq<LatLng>, n: nat, dist: (LatLng, LatLng) -> real)
    requires 1 <= n <= |ll|
    ensures JoinedInside(ll, dist, FoldAll(ll, n, dist))
    decreases n
  {
    if n > 1 {
      FoldInside(ll, n - 1, dist);
      var cs := FoldAll(ll, n, dist);
      forall k, j | 0 <= k < |cs| && cs[k].start < j < cs[k].End() && cs[k].End() <= |ll|
        ensures Joined(ll, dist, cs[k].start, j)
      {
        InsideStep(ll, n, dist, k, j);
      }
    }
  }

  /** One point of one cluster after `n` points: it joined, given that every
      point did so after `n - 1` points. */
  lemma InsideStep(ll: seq<LatLng>, n: nat, dist: (LatLng, LatLng) -> real, k: nat, j: nat)
    requires 2 <= n <= |ll|
    requires JoinedInside(ll, dist, FoldAll(ll, n - 1, dist))
    requires k < |FoldAll(ll, n, dist)|
    requires FoldAll(ll, n, dist)[k].start < j < FoldAll(ll, n, dist)[k].End() <= |ll|
    ensures Joined(ll, dist, FoldAll(ll, n, dist)[k].start, j)
  {
    FoldStep(ll, n, dist);
    var cs := FoldAll(ll, n, dist);
    var old_cs := FoldAll(ll, n - 1, dist);
    var po := Fold(ll, n - 1, dist).1;
    assert old_cs[|old_cs| - 1] == po;
    if k < |old_cs| - 1 || (k == |old_cs| - 1 && !Joined(ll, dist, po.start, n - 1)) {
      assert cs[k] == old_cs[k];
      JoinedAt(ll, dist, old_cs, k, j);
    } else if k == |old_cs| - 1 && j < n - 1 {
      assert cs[k].start == po.start && po.End() == n - 1;
      JoinedAt(ll, dist, old_cs, k, j);
    }
  }

  lemma JoinedAt(ll: seq<LatLng>, dist: (LatLng, LatLng) -> real, cs: seq<Cluster>, k: nat, j: nat)
    requires JoinedInside(ll, dist, cs)
    requires k < |cs| && cs[k].start < j < cs[k].End() <= |ll|
    ensures Joined(ll, dist, cs[k].start, j)
  {
  }




  lemma {:induction false} FoldBoundaries(ll: seq<LatLng>, n: nat, dist: (LatLng, LatLng) -> real)
    requires 1 <= n <= |ll|
    ensures SplitAtBoundaries(ll, dist, FoldAll(ll, n, dist))
    decreases n
  {
    if n > 1 {
      FoldBoundaries(ll, n - 1, dist);
      FoldStep(ll, n, dist);
      var cs := FoldAll(ll, n, dist);
      var old_cs := FoldAll(ll, n - 1, dist);
      forall k | 0 < k < |cs| && cs[k - 1].start < cs[k].start < |ll|
        ensures !Joined(ll, dist, cs[k - 1].start, cs[k].start)
      {
        if k < |old_cs| {
          assert cs[k - 1] == old_cs[k - 1];
          assert cs[k].start == old_cs[k].start;
        }
      }
    }
  }

  /** A point joins the current cluster iff it lies within STOP_RADIUS_M of
      the mean of the cluster's earlier points: each point after a cluster's
      first joined it, and each cluster after the first begins with a point
      outside the radius of the previous cluster's mean. */
  lemma ClustersJoinRule(ll: seq<LatLng>, dist: (LatLng, LatLng) -> real)
    ensures JoinedInside(ll, dist, Clusters(ll, dist))
    ensures SplitAtBoundaries(ll, dist, Clusters(ll, dist))
  {
    if ll != [] {
      FoldInside(ll, |ll|, dist);
      FoldBoundaries(ll, |ll|, dist);
    }
  }

  // ------------------------------------------------------------ emission

  /** The emission gate: a stop comes from a cluster of at least three points
      whose first and last times are at least five minutes apart, and it
      carries that cluster's range, centroid and times. */
  lemma {:induction false} EmittedMembers(cs: seq<Cluster>, times: seq<Time>)
    ensures forall s :: s in Emitted(cs, times) <==> exists c :: c in cs && Flush(c, times) == Some(s)
    ensures forall s :: s in Emitted(cs, times) ==>
              s.last > s.first && s.last - s.first + 1 >= StopMinPoints && LongEnough(s.startTs, s.endTs)
    decreases |cs|
  {
    if cs != [] {
      var init := cs[..|cs| - 1];
      EmittedMembers(init, times);
      assert cs == init + [cs[|cs| - 1]];
      forall s ensures s in Emitted(cs, times) <==> exists c :: c in cs && Flush(c, times) == Some(s) {
        if s in Emitted(cs, times) && s !in Emitted(init, times) {
          assert Flush(cs[|cs| - 1], times) == Some(s);
        }
        if exists c :: c in cs && Flush(c, times) == Some(s) {
          var c :| c in cs && Flush(c, times) == Some(s);
          if c !in init {
            assert c == cs[|cs| - 1];
          }
        }
      }
    }
  }

  /** Every stop carries the times read at its own first and last index. */
  lemma EmittedTimes(cs: seq<Cluster>, times: seq<Time>)
    ensures forall s :: s in Emitted(cs, times) ==>
              s.first < s.last < |times| && s.startTs == times[s.first] && s.endTs == times[s.last]
  {
    EmittedMembers(cs, times);
  }

  /** An empty route yields no stops. */
  lemma EmptyRouteNoStops(times: seq<Time>, dist: (LatLng, LatLng) -> real)
    ensures Emitted(Clusters([], dist), times) == []
  {
  }

  /** Each stop ends before the next one begins. */
  predicate InOrder(st: seq<Stop>)
  {
    forall k :: 0 <= k < |st| - 1 ==> st[k].last < st[k + 1].first
  }

  /** Stops come out in increasing index order, without overlapping. */
  lemma {:induction false} EmittedOrdered(cs: seq<Cluster>, times: seq<Time>, to: nat)
    requires Chain(cs, 0, to)
    ensures InOrder(Emitted(cs, times))
    ensures forall s :: s in Emitted(cs, times) ==> s.last < to
    decreases |cs|
  {
    if cs != [] {
      var init := cs[..|cs| - 1];
      var c := cs[|cs| - 1];
      ChainOrdered(cs, 0, to);
      ChainPrefix(cs, 0, to);
      EmittedOrdered(init, times, c.start);
      var st := Emitted(cs, times);
      var a := Emitted(init, times);
      forall k | 0 <= k < |st| - 1 ensures st[k].last < st[k + 1].first {
        if k + 1 < |a| {
          assert st[k] == a[k] && st[k + 1] == a[k + 1];
          assert 0 <= k < |a| - 1;
          assert a[k].last < a[k + 1].first;
        } else {
          assert st == a + OptionSeq(Flush(c, times));
          assert k == |a| - 1 && Flush(c, times).Some?;
          assert st[k] == a[k] && st[k] in a;
          assert st[k + 1] == Flush(c, times).value;
          assert st[k + 1].first == c.start;
        }
      }
    }
  }

  lemma {:induction false} ChainPrefix(cs: seq<Cluster>, from: nat, to: nat)
    requires Chain(cs, from, to) && cs != []
    ensures Chain(cs[..|cs| - 1], from, cs[|cs| - 1].start)
    decreases |cs|
  {
    if |cs| > 1 {
      ChainPrefix(cs[1..], cs[0].End(), to);
      assert cs[1..][..|cs[1..]| - 1] == cs[..|cs| - 1][1..];
    }
  }

  // ------------------------------------------------------------ the route as drawn

  /** drawRoute's `if (!p.lat || !p.lon) continue`: a point is drawn when
      both coordinates are non-zero numbers. */
  predicate Drawable(p: HistoryItem)
  {
    p.pos.Pos? && p.pos.lat.Fin? && p.pos.lon.Fin? && p.pos.lat.r != 0.0 && p.pos.lon.r != 0.0
  }

  function Drawn(points: seq<HistoryItem>): (ds: seq<HistoryItem>)
    ensures |ds| <= |points|
    ensures forall k :: 0 <= k < |ds| ==> Drawable(ds[k])
  {
    if points == [] then []
    else (if Drawable(points[0]) then [points[0]] else []) + Drawn(points[1..])
  }

  /** `latlngs`: the positions of the drawn points. */
  function LatLngs(ds: seq<HistoryItem>): (ll: seq<LatLng>)
    requires forall k :: 0 <= k < |ds| ==> Drawable(ds[k])
    ensures |ll| == |ds|
  {
    if ds == [] then []
    else
      assert Drawable(ds[0]);
      [LatLng(ds[0].pos.lat.r, ds[0].pos.lon.r)] + LatLngs(ds[1..])
  }

  function Times(points: seq<HistoryItem>): (ts: seq<Time>)
    ensures |ts| == |points|
    ensures forall k :: 0 <= k < |points| ==> ts[k] == points[k].ts
  {
    if points == [] then [] else [points[0].ts] + Times(points[1..])
  }

  /** As written: `annotateStops(points, latlngs)` reads times from the full
      `points` list at indices of the filtered `latlngs`. */
  function StopsAsWritten(points: seq<HistoryItem>, dist: (LatLng, LatLng) -> real): (st: seq<Stop>)
    ensures forall s :: s in st ==>
              s.first < s.last < |points| && s.startTs == points[s.first].ts && s.endTs == points[s.last].ts
  {
    EmittedTimes(Clusters(LatLngs(Drawn(points)), dist), Times(points));
    Emitted(Clusters(LatLngs(Drawn(points)), dist), Times(points))
  }

  /** As intended: the times of the drawn points themselves. */
  function RouteStops(points: seq<HistoryItem>, dist: (LatLng, LatLng) -> real): (st: seq<Stop>)
    ensures var ds := Drawn(points);
            forall s :: s in st ==>
              s.first < s.last < |ds| && s.startTs == ds[s.first].ts && s.endTs == ds[s.last].ts
  {
    var ds := Drawn(points);
    EmittedTimes(Clusters(LatLngs(ds), dist), Times(ds));
    Emitted(Clusters(LatLngs(ds), dist), Times(ds))
  }

  /** The two agree whenever no point is dropped from the drawing. */
  lemma {:induction false} AlignedWhenAllDrawn(points: seq<HistoryItem>, dist: (LatLng, LatLng) -> real)
    requires forall p :: p in points ==> Drawable(p)
    ensures StopsAsWritten(points, dist) == RouteStops(points, dist)
  {
    DrawnAll(points);
  }

  lemma {:induction false} DrawnAll(points: seq<HistoryItem>)
    requires forall p :: p in points ==> Drawable(p)
    ensures Drawn(points) == points
  {
    if points != [] {
      DrawnAll(points[1..]);
      assert points == [points[0]] + points[1..];
    }
  }

  /** The route stops, computed by the procedure, satisfy the gate, come out
      in order and lie within the drawn route. */
  lemma StopsGate(ll: seq<LatLng>, times: seq<Time>, dist: (LatLng, LatLng) -> real)
    ensures var st := Emitted(Clusters(ll, dist), times);
            && (forall s :: s in st ==> s.last > s.first && s.last - s.first + 1 >= StopMinPoints
                                         && LongEnough(s.startTs, s.endTs) && s.last < |ll|)
            && InOrder(st)
  {
    ClustersPartition(ll, dist);
    EmittedMembers(Clusters(ll, dist), times);
    EmittedOrdered(Clusters(ll, dist), times, |ll|);
  }

  // ------------------------------------------------------------ the misalignment

  function Fix(lat: real, lon: real, ms: int): HistoryItem
  {
    HistoryItem(Undefined, Pos(Fin(lat), Fin(lon)), Fin(0.0), Fin(11.0), Str(""), Undefined, At(ms), Undefined)
  }

  /** A route whose first reading has no position, followed by three readings
      at one place over six minutes: the stop exists, but read through the
      unfiltered list its times span only two minutes. */
  function ShiftedRoute(): seq<HistoryItem>
  {
    [HistoryItem(Undefined, NoPosition, Fin(0.0), Fin(11.0), Str(""), Undefined, At(0), Undefined),
     Fix(-26.8, -65.2, 60000), Fix(-26.8, -65.2, 120000), Fix(-26.8, -65.2, 420000)]
  }

  /** A distance that puts every pair of points together. */
  function Nowhere(a: LatLng, b: LatLng): real { 0.0 }

  const Place: LatLng := LatLng(-26.8, -65.2)

  lemma ShiftedRouteDrawn()
    ensures Drawn(ShiftedRoute()) == ShiftedRoute()[1..]
    ensures LatLngs(Drawn(ShiftedRoute())) == [Place, Place, Place]
  {
    var r := ShiftedRoute();
    assert Drawn(r[3..][1..]) == [];
    assert Drawn(r[3..]) == [r[3]];
    assert Drawn(r[2..]) == [r[2], r[3]];
    assert Drawn(r[1..]) == [r[1], r[2], r[3]];
    assert r[1..] == [r[1], r[2], r[3]];
  }

  lemma ShiftedRouteClusters()
    ensures Clusters([Place, Place, Place], Nowhere) == [Cluster(0, 3, -26.8 * 3.0, -65.2 * 3.0)]
  {
    var ll := [Place, Place, Place];
    assert Fold(ll, 2, Nowhere) == ([], Cluster(0, 2, -26.8 * 2.0, -65.2 * 2.0));
  }

  lemma ShiftedRouteTimes()
    ensures Times(ShiftedRoute())[0] == At(0) && Times(ShiftedRoute())[2] == At(120000)
    ensures |Times(ShiftedRoute()[1..])| == 3
    ensures Times(ShiftedRoute()[1..])[0] == At(60000) && Times(ShiftedRoute()[1..])[2] == At(420000)
  {
  }

  /** Through the unfiltered list the stop's times are those of readings 0
      and 2 (two minutes apart), so it is lost; aligned, its times are those
      of readings 1 and 3 (six minutes apart) and the stop is emitted. */
  lemma MisalignedStopIsLost()
    ensures StopsAsWritten(ShiftedRoute(), Nowhere) == []
    ensures RouteStops(ShiftedRoute(), Nowhere) == [Stop(0, 2, Place, At(60000), At(420000))]
  {
    ShiftedRouteDrawn();
    ShiftedRouteClusters();
    ShiftedRouteTimes();
    var r := ShiftedRoute();
    var c := Cluster(0, 3, -26.8 * 3.0, -65.2 * 3.0);
    assert Clusters(LatLngs(Drawn(r)), Nowhere) == [c];
    assert [c][..0] == [];
    assert c.Center() == Place;
    assert |Times(r)| == 4;
    assert Flush(c, Times(r)) == None;
    assert Emitted([c], Times(r)) == [];
    var ts := Times(Drawn(r));
    assert ts == Times(r[1..]);
    assert Flush(c, ts) == Some(Stop(0, 2, Place, At(60000), At(420000)));
    assert Emitted([c], ts) == [Stop(0, 2, Place, At(60000), At(420000))];
  }
}
