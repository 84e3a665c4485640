/** The horizontal-axis tick overlay (src/components/XAxisTicks.tsx): a row of
    tick elements built once at mount and re-laid out on every animation frame
    from the camera data a panning section publishes. */
module XAxisTicks {
  import opened Common
  import opened TickMath

  /** `Math.ceil(innerWidth / 200) + 3` elements (none when that is not positive). */
  function TickCount(w: real): (n: nat)
    ensures n as int == MaxInt(0, Ceil(w / 200.0) + 3)
  {
    MaxInt(0, Ceil(w / 200.0) + 3)
  }

  /** As long as the window is no wider than at mount, the closest value has an
      element: its index `1 + ceil(w / 400)` is below `ceil(w0 / 200) + 3`. */
  lemma {:induction false} ClosestTickExists(w: real, w0: real)
    requires 0.0 <= w <= w0
    ensures 0 <= HighlightIndex(w) < TickCount(w0)
  {
    CeilHalfBelow(w);
    assert Ceil(w / 200.0) <= Ceil(w0 / 200.0);
  }

  class XAxisOverlay {
    var ticks: seq<TickEl>
    /** The container's opacity is "0" (true) or "1" (false, also the initial style). */
    var faded: bool

    /** The effect's mount: pre-builds the elements for the window width `w0`. */
    constructor (w0: real)
      ensures ticks == seq(TickCount(w0), _ => FreshTick)
      ensures !faded
    {
      ticks := seq(TickCount(w0), _ => FreshTick);
      faded := false;
    }

    /** One frame of `update` with the published `visible` flag and `translateX`,
        and the window width `w`. */
    method Update(visible: bool, translateX: real, w: real)
      modifies this
      ensures faded <==> !visible
      ensures !visible ==> ticks == old(ticks)
      ensures visible ==> ticks == LayoutAll(old(ticks), -translateX, w)
    {
      if !visible {
        faded := true;
        return;
      }
      faded := false;
      var centerX := w / 2.0;
      var centerVal := centerX - translateX;
      var closestVal := Floor((centerVal + 100.0) / 200.0) * 200;
      var start := Floor(closestVal as real / 200.0 - w / 400.0 - 1.0) * 200;
      assert centerVal == -translateX + w / 2.0;
      var children := ticks;
      var i := 0;
      while i < |children|
        invariant 0 <= i <= |children| == |ticks|
        invariant forall j :: 0 <= j < i ==>
          children[j] == LayoutTick(ticks[j], TickValue(start, j), TickValue(start, j) as real - -translateX, w, closestVal)
        invariant forall j :: i <= j < |children| ==> children[j] == ticks[j]
      {
        var val := start + i * 200;
        var screen := val as real + translateX;
        if screen < -20.0 || screen > w + 20.0 {
          children := children[i := children[i].(hidden := true)];
          i := i + 1;
          continue;
        }
        children := children[i := TickEl(false, Some(screen), val == closestVal, Some(val))];
        i := i + 1;
      }
      ticks := children;
    }
  }
}
