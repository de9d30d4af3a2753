/** The distance total of the kilometre report (generateKmReport): the sum
    of the legs between consecutive readings, counting a leg only when both
    readings carry a position and the leg is shorter than 5 km. The
    great-circle distance `haversineKm(lat1, lon1, lat2, lon2)` is a
    parameter `km`. */
module RouteKm {
  import opened Js
  import opened Readings

  const MaxLegKm: real := 5.0

  /** `p.lat && p.lon`: both coordinates are truthy numbers. */
  predicate HasCoords(p: HistoryItem)
  {
    p.pos.Pos? && p.pos.lat.Truthy() && p.pos.lon.Truthy()
  }

  /** What one pair of consecutive readings adds to the total. */
  function Leg(prev: HistoryItem, curr: HistoryItem, km: (Num, Num, Num, Num) -> Num): (d: real)
    ensures d < MaxLegKm
    ensures d != 0.0 ==> HasCoords(prev) && HasCoords(curr)
  {
    if HasCoords(prev) && HasCoords(curr) then
      var dist := km(prev.pos.lat, prev.pos.lon, curr.pos.lat, curr.pos.lon);
      if dist.Fin? && dist.r < MaxLegKm then dist.r else 0.0
    else 0.0
  }

  /** The sum of the legs of `points`, from the first pair to the last. */
  function KmSum(points: seq<HistoryItem>, km: (Num, Num, Num, Num) -> Num): real
  {
    if |points| < 2 then 0.0
    else KmSum(points[..|points| - 1], km) + Leg(points[|points| - 2], points[|points| - 1], km)
  }

  /** The accumulation loop of generateKmReport. */
  method TotalKm(points: seq<HistoryItem>, km: (Num, Num, Num, Num) -> Num) returns (totalKm: real)
    ensures totalKm == KmSum(points, km)
  {
    totalKm := 0.0;
    var i := 1;
    while i < |points|
      invariant 1 <= i <= |points| || |points| == 0
      invariant totalKm == KmSum(points[..if |points| == 0 then 0 else i], km)
    {
      var prev := points[i - 1];
      var curr := points[i];
      if HasCoords(prev) && HasCoords(curr) {
        var dist := km(prev.pos.lat, prev.pos.lon, curr.pos.lat, curr.pos.lon);
        if dist.Fin? && dist.r < MaxLegKm {
          totalKm := totalKm + dist.r;
        }
      }
      assert points[..i + 1][..i] == points[..i];
      i := i + 1;
    }
    assert points[..if |points| == 0 then 0 else i] == points;
  }

  // ------------------------------------------------------------ properties

  /** Joining two routes adds the leg across the seam. */
  lemma {:induction false} KmAppend(a: seq<HistoryItem>, b: seq<HistoryItem>, km: (Num, Num, Num, Num) -> Num)
    requires a != [] && b != []
    ensures KmSum(a + b, km) == KmSum(a, km) + Leg(a[|a| - 1], b[0], km) + KmSum(b, km)
    decreases |b|
  {
    if |b| == 1 {
      assert (a + b)[..|a + b| - 1] == a;
    } else {
      var b' := b[..|b| - 1];
      KmAppend(a, b', km);
      assert (a + b)[..|a + b| - 1] == a + b';
      assert b'[0] == b[0];
    }
  }

  /** Every counted leg is shorter than 5 km, so `n` readings give less than
      5 (n - 1) km; fewer than two readings give 0. */
  lemma {:induction false} KmBelowBound(points: seq<HistoryItem>, km: (Num, Num, Num, Num) -> Num)
    ensures |points| < 2 ==> KmSum(points, km) == 0.0
    ensures |points| >= 2 ==> KmSum(points, km) < MaxLegKm * (|points| - 1) as real
  {
    if |points| > 2 {
      KmBelowBound(points[..|points| - 1], km);
    }
  }

  /** With a distance that is never negative the total is never negative. */
  lemma {:induction false} KmNonNegative(points: seq<HistoryItem>, km: (Num, Num, Num, Num) -> Num)
    requires forall a, b, c, d :: km(a, b, c, d).Fin? ==> km(a, b, c, d).r >= 0.0
    ensures KmSum(points, km) >= 0.0
  {
    if |points| >= 2 {
      KmNonNegative(points[..|points| - 1], km);
    }
  }

  /** A reading without a position contributes nothing on either side: the
      total is that of the readings before it plus that of the readings after it. */
  lemma GapSplitsRoute(a: seq<HistoryItem>, p: HistoryItem, b: seq<HistoryItem>, km: (Num, Num, Num, Num) -> Num)
    requires a != [] && b != [] && !HasCoords(p)
    ensures KmSum(a + [p] + b, km) == KmSum(a, km) + KmSum(b, km)
  {
    KmAppend(a, [p], km);
    KmAppend(a + [p], b, km);
  }

  /** A jump of 5 km or more adds nothing: the total is that of the two
      sides of the jump. */
  lemma JumpSplitsRoute(a: seq<HistoryItem>, b: seq<HistoryItem>, km: (Num, Num, Num, Num) -> Num)
    requires a != [] && b != []
    requires a[|a| - 1].pos.Pos? && b[0].pos.Pos?
    requires var p, q := a[|a| - 1].pos, b[0].pos;
             var d := km(p.lat, p.lon, q.lat, q.lon);
             d.Fin? && d.r >= MaxLegKm
    ensures KmSum(a + b, km) == KmSum(a, km) + KmSum(b, km)
  {
    KmAppend(a, b, km);
  }
}
