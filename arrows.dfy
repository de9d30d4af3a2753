/** The direction arrows drawn along a route (addRouteArrows): at most 50
    arrows, one on every `step`-th leg, each at the midpoint of its leg and
    turned by the leg's bearing. The bearing `bearingDeg(a, b)` is a
    parameter `bearing`; the markers themselves are not modelled. */
module Arrows {
  import opened Wrappers
  import opened Stops

  const MaxArrows: nat := 50
  const ArrowOffsetDeg: real := -90.0

  // ------------------------------------------------------------ normDeg

  /** `Math.trunc(x)` */
  function Trunc(x: real): int
  {
    if x >= 0.0 then x.Floor else -((-x).Floor)
  }

  /** JavaScript's `a % 360`: the remainder takes the sign of `a`
      (truncating division). */
  function JsRem360(a: real): (r: real)
    ensures a >= 0.0 ==> 0.0 <= r < 360.0
    ensures a < 0.0 ==> -360.0 < r <= 0.0
  {
    a - 360.0 * Trunc(a / 360.0) as real
  }

  /** `normDeg(d) = ((d % 360) + 360) % 360`. */
  function NormDeg(d: real): (r: real)
    ensures 0.0 <= r < 360.0
  {
    JsRem360(JsRem360(d) + 360.0)
  }

  /** The floored remainder modulo 360, the reference `normDeg` is meant to compute. */
  function FloorMod360(d: real): real
  {
    d - 360.0 * (d / 360.0).Floor as real
  }

  /** Two angles in [0, 360) that differ by a whole number of turns are equal. */
  lemma SameTurn(x: real, y: real, k: int)
    requires 0.0 <= x < 360.0 && 0.0 <= y < 360.0
    requires x - y == 360.0 * k as real
    ensures x == y
  {
  }

  /** `normDeg` is the floored remainder: it differs from its input by a
      whole number of turns and lands in [0, 360). */
  lemma NormDegIsFloorMod(d: real)
    ensures NormDeg(d) == FloorMod360(d)
  {
    var m := JsRem360(d);
    var t1 := Trunc(d / 360.0);
    var t2 := Trunc((m + 360.0) / 360.0);
    var f := (d / 360.0).Floor;
    assert m == d - 360.0 * t1 as real;
    assert NormDeg(d) == m + 360.0 - 360.0 * t2 as real;
    assert 0.0 <= FloorMod360(d) < 360.0 by {
      assert f as real <= d / 360.0 < f as real + 1.0;
    }
    assert NormDeg(d) - FloorMod360(d) == 360.0 * (f + 1 - t1 - t2) as real;
    SameTurn(NormDeg(d), FloorMod360(d), f + 1 - t1 - t2);
  }

  /** An angle already in [0, 360) is left alone, so `normDeg` is idempotent. */
  lemma NormDegKeepsNormal(d: real)
    requires 0.0 <= d < 360.0
    ensures NormDeg(d) == d
  {
    NormDegIsFloorMod(d);
    assert (d / 360.0).Floor == 0;
  }

  lemma NormDegIdempotent(d: real)
    ensures NormDeg(NormDeg(d)) == NormDeg(d)
  {
    NormDegKeepsNormal(NormDeg(d));
  }

  /** Whole turns do not change the normalised angle. */
  lemma NormDegPeriodic(d: real, k: int)
    ensures NormDeg(d + 360.0 * k as real) == NormDeg(d)
  {
    var e := d + 360.0 * k as real;
    NormDegIsFloorMod(d);
    NormDegIsFloorMod(e);
    var f := (d / 360.0).Floor;
    var g := (e / 360.0).Floor;
    assert f as real <= d / 360.0 < f as real + 1.0;
    assert g as real <= e / 360.0 < g as real + 1.0;
    assert e / 360.0 == d / 360.0 + k as real;
    assert g == f + k;
  }

  // ------------------------------------------------------------ the legs

  /** `Math.max(1, Math.ceil(n / 50))`: the smallest positive step that
      leaves at most 50 slots. */
  function Step(n: nat): (step: nat)
    ensures step >= 1
    ensures n <= MaxArrows * step
    ensures step == 1 || MaxArrows * (step - 1) < n
  {
    if n == 0 then 1 else (n + MaxArrows - 1) / MaxArrows
  }

  /** The leg indices `i, i + step, ...` below `last`, in order. */
  function Slots(i: nat, last: nat, step: nat): (slots: seq<nat>)
    requires step >= 1
    decreases last - i
  {
    if i < last then [i] + Slots(i + step, last, step) else []
  }

  /** The slots start at `i`, go up by `step`, stay below `last`, and stop
      only when the next one would reach `last`. */
  lemma {:induction false} SlotsShape(i: nat, last: nat, step: nat)
    requires step >= 1
    ensures var s := Slots(i, last, step);
            && (s == [] <==> i >= last)
            && (s != [] ==> s[0] == i && s[|s| - 1] < last <= s[|s| - 1] + step)
            && (forall j :: 0 <= j < |s| ==> i <= s[j] < last)
            && (forall j :: 0 <= j < |s| - 1 ==> s[j + 1] == s[j] + step)
    decreases last - i
  {
    if i < last {
      SlotsShape(i + step, last, step);
    }
  }

  lemma SlotsInRange(i: nat, last: nat, step: nat)
    requires step >= 1
    ensures var s := Slots(i, last, step); forall j :: 0 <= j < |s| ==> i <= s[j] < last
  {
    SlotsShape(i, last, step);
  }

  /** Each slot takes up `step` positions: `|slots| * step < last - i + step`. */
  lemma {:induction false} SlotsCount(i: nat, last: nat, step: nat)
    requires step >= 1
    ensures |Slots(i, last, step)| * step <= (if i < last then last - i + step - 1 else 0)
    decreases last - i
  {
    if i < last {
      SlotsCount(i + step, last, step);
      var c := |Slots(i + step, last, step)|;
      assert (1 + c) * step == step + c * step;
    }
  }

  /** A route of `n >= 2` readings gets at most 50 slots, whatever its length. */
  lemma SlotsAtMostMax(n: nat)
    requires n >= 2
    ensures |Slots(0, n - 1, Step(n))| <= MaxArrows
  {
    var step := Step(n);
    SlotsCount(0, n - 1, step);
    var c := |Slots(0, n - 1, step)|;
    assert c * step < (MaxArrows + 1) * step;
  }

  /** With a step of one every index below `last` is a slot. */
  lemma {:induction false} UnitSlots(i: nat, last: nat)
    requires i <= last
    ensures var s := Slots(i, last, 1);
            |s| == last - i && forall k :: 0 <= k < |s| ==> s[k] == i + k
    decreases last - i
  {
    if i < last {
      UnitSlots(i + 1, last);
      var s := Slots(i, last, 1);
      var rest := Slots(i + 1, last, 1);
      assert s == [i] + rest;
      forall k | 0 < k < |s| ensures s[k] == i + k {
        assert s[k] == rest[k - 1];
      }
    }
  }

  /** Up to 50 readings, every leg gets its slot. */
  lemma ShortRouteEveryLeg(n: nat)
    requires 2 <= n <= MaxArrows
    ensures Slots(0, n - 1, Step(n)) == seq(n - 1, k requires 0 <= k < n - 1 => k)
  {
    assert Step(n) == 1;
    UnitSlots(0, n - 1);
  }

  // ------------------------------------------------------------ the arrows

  datatype Arrow = Arrow(mid: LatLng, rot: real)

  /** The arrow of the leg from `a` to `b`. */
  function ArrowOf(a: LatLng, b: LatLng, bearing: (LatLng, LatLng) -> real): (arrow: Arrow)
    ensures 0.0 <= arrow.rot < 360.0
    ensures arrow.mid.lat - a.lat == b.lat - arrow.mid.lat
    ensures arrow.mid.lon - a.lon == b.lon - arrow.mid.lon
  {
    Arrow(LatLng((a.lat + b.lat) / 2.0, (a.lon + b.lon) / 2.0), NormDeg(bearing(a, b) + ArrowOffsetDeg))
  }

  /** The arrows of the slots from `i` on; a slot whose end points are
      missing is skipped. */
  function ArrowsFrom(ll: seq<Option<LatLng>>, i: nat, step: nat, bearing: (LatLng, LatLng) -> real): seq<Arrow>
    requires step >= 1
    decreases |ll| - i
  {
    if i + 1 < |ll| then
      (if ll[i].Some? && ll[i + 1].Some? then [ArrowOf(ll[i].value, ll[i + 1].value, bearing)] else [])
      + ArrowsFrom(ll, i + step, step, bearing)
    else []
  }

  lemma ArrowsStep(ll: seq<Option<LatLng>>, i: nat, step: nat, bearing: (LatLng, LatLng) -> real, done: seq<Arrow>)
    requires step >= 1 && i + 1 < |ll|
    ensures done + ArrowsFrom(ll, i, step, bearing)
         == (if ll[i].Some? && ll[i + 1].Some? then done + [ArrowOf(ll[i].value, ll[i + 1].value, bearing)] else done)
            + ArrowsFrom(ll, i + step, step, bearing)
  {
  }

  /** addRouteArrows */
  method AddRouteArrows(latlngs: seq<Option<LatLng>>, bearing: (LatLng, LatLng) -> real) returns (arrows: seq<Arrow>)
    ensures |latlngs| < 2 ==> arrows == []
    ensures |latlngs| >= 2 ==> arrows == ArrowsFrom(latlngs, 0, Step(|latlngs|), bearing)
  {
    arrows := [];
    if |latlngs| < 2 {
      return;
    }
    var step := Step(|latlngs|);
    var i := 0;
    while i < |latlngs| - 1
      invariant arrows + ArrowsFrom(latlngs, i, step, bearing) == ArrowsFrom(latlngs, 0, step, bearing)
      decreases |latlngs| - i
    {
      var a := latlngs[i];
      var b := latlngs[i + 1];
      ArrowsStep(latlngs, i, step, bearing, arrows);
      if a.Some? && b.Some? {
        arrows := arrows + [ArrowOf(a.value, b.value, bearing)];
      }
      i := i + step;
    }
    assert arrows + [] == arrows;
  }

  // ------------------------------------------------------------ properties

  /** A slot without both end points loses its arrow, so there are never
      more arrows than slots. */
  lemma {:induction false} ArrowsAtMostSlots(ll: seq<Option<LatLng>>, i: nat, step: nat, bearing: (LatLng, LatLng) -> real)
    requires step >= 1 && ll != []
    ensures |ArrowsFrom(ll, i, step, bearing)| <= |Slots(i, |ll| - 1, step)|
    decreases |ll| - i
  {
    if i + 1 < |ll| {
      ArrowsAtMostSlots(ll, i + step, step, bearing);
      OneMoreSlot(i, |ll| - 1, step);
      AtMostOneMoreArrow(ll, i, step, bearing);
    }
  }

  lemma OneMoreSlot(i: nat, last: nat, step: nat)
    requires step >= 1 && i < last
    ensures |Slots(i, last, step)| == 1 + |Slots(i + step, last, step)|
  {
  }

  lemma AtMostOneMoreArrow(ll: seq<Option<LatLng>>, i: nat, step: nat, bearing: (LatLng, LatLng) -> real)
    requires step >= 1 && i + 1 < |ll|
    ensures |ArrowsFrom(ll, i, step, bearing)| <= 1 + |ArrowsFrom(ll, i + step, step, bearing)|
  {
  }

  /** When every point is present there is one arrow per slot, on that
      slot's leg. */
  lemma {:induction false} ArrowsOnSlots(ll: seq<Option<LatLng>>, i: nat, step: nat, bearing: (LatLng, LatLng) -> real)
    requires step >= 1 && ll != []
    requires forall k :: 0 <= k < |ll| ==> ll[k].Some?
    ensures var s := Slots(i, |ll| - 1, step);
            && |ArrowsFrom(ll, i, step, bearing)| == |s|
            && (forall j :: 0 <= j < |s| ==> s[j] + 1 < |ll|)
            && (forall j :: 0 <= j < |s| ==>
                  ArrowsFrom(ll, i, step, bearing)[j] == ArrowOf(ll[s[j]].value, ll[s[j] + 1].value, bearing))
    decreases |ll| - i
  {
    SlotsInRange(i, |ll| - 1, step);
    if i + 1 < |ll| {
      var s := Slots(i, |ll| - 1, step);
      var rest := Slots(i + step, |ll| - 1, step);
      var arrows := ArrowsFrom(ll, i, step, bearing);
      var tail := ArrowsFrom(ll, i + step, step, bearing);
      ArrowsOnSlots(ll, i + step, step, bearing);
      var first := ArrowOf(ll[i].value, ll[i + 1].value, bearing);
      assert s == [i] + rest;
      assert arrows == [first] + tail;
      forall j | 0 <= j < |s|
        ensures arrows[j] == ArrowOf(ll[s[j]].value, ll[s[j] + 1].value, bearing)
      {
        if j > 0 {
          ShiftIndex(arrows, first, tail, j);
          ShiftIndex(s, i, rest, j);
        }
      }
    }
  }

  lemma ShiftIndex<T>(xs: seq<T>, x: T, tail: seq<T>, j: nat)
    requires xs == [x] + tail && 1 <= j < |xs|
    ensures xs[j] == tail[j - 1]
  {
  }

  /** However long the route, it gets at most 50 arrows, each turned into [0, 360). */
  lemma ArrowsBounded(ll: seq<Option<LatLng>>, bearing: (LatLng, LatLng) -> real)
    requires |ll| >= 2
    ensures |ArrowsFrom(ll, 0, Step(|ll|), bearing)| <= MaxArrows
    ensures forall a :: a in ArrowsFrom(ll, 0, Step(|ll|), bearing) ==> 0.0 <= a.rot < 360.0
  {
    ArrowsAtMostSlots(ll, 0, Step(|ll|), bearing);
    SlotsAtMostMax(|ll|);
    RotationsNormal(ll, 0, Step(|ll|), bearing);
  }

  lemma {:induction false} RotationsNormal(ll: seq<Option<LatLng>>, i: nat, step: nat, bearing: (LatLng, LatLng) -> real)
    requires step >= 1
    ensures forall a :: a in ArrowsFrom(ll, i, step, bearing) ==> 0.0 <= a.rot < 360.0
    decreases |ll| - i
  {
    if i + 1 < |ll| {
      RotationsNormal(ll, i + step, step, bearing);
    }
  }
}
