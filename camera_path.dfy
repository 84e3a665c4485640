/** The camera path of src/components/ProjectSection/cameraPath.ts: a uniform
    Catmull–Rom spline (tension 0.5) through a list of waypoints, parameterised
    by a global progress t in [0, 1], and the lookup of the waypoint nearest to
    a progress value. */
module CameraPath {
  import opened Common

  datatype Point = Point(x: real, y: real)

  /** One coordinate of the Catmull–Rom segment from p1 to p2 at local parameter u. */
  function CatmullRom(p0: real, p1: real, p2: real, p3: real, u: real): real {
    var uu := u * u;
    var uuu := uu * u;
    0.5 * (2.0 * p1 + (-p0 + p2) * u + (2.0 * p0 - 5.0 * p1 + 4.0 * p2 - p3) * uu
           + (-p0 + 3.0 * p1 - 3.0 * p2 + p3) * uuu)
  }

  /** A segment starts at p1 and ends at p2 whatever the outer control points are. */
  lemma CatmullRomEndpoints(p0: real, p1: real, p2: real, p3: real)
    ensures CatmullRom(p0, p1, p2, p3, 0.0) == p1
    ensures CatmullRom(p0, p1, p2, p3, 1.0) == p2
  {
  }

  /** The segment a progress value falls in, for a path of n + 1 >= 2 waypoints:
      `i = min(floor(scaledT), n - 1)` and `localT = scaledT - i`. */
  datatype Segment = Segment(i: int, localT: real)

  /** `scaledT = clamp(t, 0, 1) * n`: the global progress in units of segments. */
  function Scaled(n: int, t: real): (r: real)
    ensures n >= 0 ==> 0.0 <= r <= n as real
  {
    var c := Clamp01(t);
    assert n >= 0 ==> c * n as real <= 1.0 * n as real;
    c * n as real
  }

  function SegmentAt(n: int, t: real): (s: Segment)
    requires n >= 1
    ensures 0 <= s.i <= n - 1 && 0.0 <= s.localT <= 1.0
    ensures s.i as real + s.localT == Scaled(n, t)
  {
    var scaledT := Scaled(n, t);
    var i := MinInt(Floor(scaledT), n - 1);
    Segment(i, scaledT - i as real)
  }

  /** `interpolatePath(waypoints, t)`. */
  function InterpolatePath(waypoints: seq<Point>, t: real): (r: Point)
    ensures |waypoints| == 0 ==> r == Point(0.0, 0.0)
    ensures |waypoints| == 1 ==> r == waypoints[0]
  {
    if |waypoints| == 0 then Point(0.0, 0.0)
    else if |waypoints| == 1 then waypoints[0]
    else
      var n := |waypoints| - 1;
      var seg := SegmentAt(n, t);
      var i := seg.i;
      var p0 := waypoints[MaxInt(0, i - 1)];
      var p1 := waypoints[i];
      var p2 := waypoints[MinInt(n, i + 1)];
      var p3 := waypoints[MinInt(n, i + 2)];
      Point(CatmullRom(p0.x, p1.x, p2.x, p3.x, seg.localT),
            CatmullRom(p0.y, p1.y, p2.y, p3.y, seg.localT))
  }

  /** At t = k / n the scaled progress is exactly k: waypoint k starts segment k,
      and the last waypoint ends the last segment. */
  lemma {:induction false} SegmentAtWaypoint(n: int, k: int)
    requires n >= 1 && 0 <= k <= n
    ensures SegmentAt(n, k as real / n as real) == if k < n then Segment(k, 0.0) else Segment(n - 1, 1.0)
  {
    var t := k as real / n as real;
    assert t * n as real == k as real;
    assert 0.0 <= t <= 1.0;
    assert Scaled(n, t) == k as real;
    assert Floor(k as real) == k;
  }

  /** The curve passes through every waypoint: at t = k / n it is at waypoint k. */
  lemma {:induction false} PassesThroughWaypoints(waypoints: seq<Point>, k: int)
    requires |waypoints| >= 2 && 0 <= k < |waypoints|
    ensures InterpolatePath(waypoints, k as real / (|waypoints| - 1) as real) == waypoints[k]
  {
    var n := |waypoints| - 1;
    SegmentAtWaypoint(n, k);
    var seg := SegmentAt(n, k as real / n as real);
    var i := seg.i;
    var p0 := waypoints[MaxInt(0, i - 1)];
    var p3 := waypoints[MinInt(n, i + 2)];
    if k < n {
      CatmullRomEndpoints(p0.x, waypoints[k].x, waypoints[MinInt(n, k + 1)].x, p3.x);
      CatmullRomEndpoints(p0.y, waypoints[k].y, waypoints[MinInt(n, k + 1)].y, p3.y);
    } else {
      CatmullRomEndpoints(p0.x, waypoints[n - 1].x, waypoints[n].x, p3.x);
      CatmullRomEndpoints(p0.y, waypoints[n - 1].y, waypoints[n].y, p3.y);
    }
  }

  /** Progress is clamped: t <= 0 gives the first waypoint and t >= 1 the last, exactly. */
  lemma {:induction false} ClampedEnds(waypoints: seq<Point>, t: real)
    requires |waypoints| >= 2
    ensures t <= 0.0 ==> InterpolatePath(waypoints, t) == waypoints[0]
    ensures t >= 1.0 ==> InterpolatePath(waypoints, t) == waypoints[|waypoints| - 1]
  {
    var n := |waypoints| - 1;
    if t <= 0.0 {
      assert SegmentAt(n, t) == SegmentAt(n, 0.0 / n as real);
      PassesThroughWaypoints(waypoints, 0);
    }
    if t >= 1.0 {
      assert SegmentAt(n, t) == SegmentAt(n, n as real / n as real);
      PassesThroughWaypoints(waypoints, n);
    }
  }

  /** With two waypoints the path is linear between them, so t = 0.5 is their midpoint. */
  lemma TwoPointMidpoint(a: Point, b: Point)
    ensures InterpolatePath([a, b], 0.5) == Point((a.x + b.x) / 2.0, (a.y + b.y) / 2.0)
  {
    assert SegmentAt(1, 0.5) == Segment(0, 0.5);
  }

  /** `getSegmentInfo(waypointCount, t)`: the nearest waypoint and how close to it the progress is. */
  datatype SegmentInfo = SegmentInfo(index: int, localProgress: real)

  function GetSegmentInfo(waypointCount: int, t: real): (r: SegmentInfo)
    ensures waypointCount >= 1 ==> 0 <= r.index <= waypointCount - 1 && 0.5 <= r.localProgress <= 1.0
  {
    var n := waypointCount - 1;
    var scaledT := Scaled(n, t);
    var index := MinInt(Round(scaledT), n);
    SegmentInfo(index, 1.0 - Abs(scaledT - index as real))
  }

  /** Rounding picks a nearest integer of the interval [0, n] containing s. */
  lemma RoundNearest(s: real, n: int, j: int)
    requires 0.0 <= s <= n as real && 0 <= j <= n
    ensures MinInt(Round(s), n) == Round(s)
    ensures Abs(s - Round(s) as real) <= Abs(s - j as real)
  {
    var r := Round(s);
    if j > r {
      assert j as real - s >= 0.5;
    } else if j < r {
      assert s - j as real >= 0.5;
    }
  }

  /** The index returned is a waypoint nearest to the scaled progress. */
  lemma {:induction false} SegmentInfoNearest(waypointCount: int, t: real, j: int)
    requires waypointCount >= 1 && 0 <= j <= waypointCount - 1
    ensures var scaledT := Scaled(waypointCount - 1, t);
            Abs(scaledT - GetSegmentInfo(waypointCount, t).index as real) <= Abs(scaledT - j as real)
  {
    RoundNearest(Scaled(waypointCount - 1, t), waypointCount - 1, j);
  }

  /** The cases cameraPath.test.ts pins, for five waypoints. */
  lemma SegmentInfoExamples()
    ensures GetSegmentInfo(5, 0.0) == SegmentInfo(0, 1.0)
    ensures GetSegmentInfo(5, 1.0) == SegmentInfo(4, 1.0)
    ensures GetSegmentInfo(5, 0.5) == SegmentInfo(2, 1.0)
    ensures GetSegmentInfo(5, 0.3) == SegmentInfo(1, 0.8)
  {
    assert Round(1.2) == 1;
  }
}
