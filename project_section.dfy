/** The render-time arithmetic of src/components/ProjectSection/index.tsx: the
    section's scroll progress and in-view test, the active dot, the focus
    intensity and the highlight/crosshair/x-axis values it publishes, the
    connection-line fill, and the label spotlight that fades after the pointer
    goes idle. */
module ProjectSection {
  import opened Common
  import CameraPath

  const MobileBreakpoint: real := 768.0
  const ProximityRadius: real := 280.0
  const IdleThreshold: real := 2000.0
  const FadeDuration: real := 800.0

  /** `handleScroll`'s progress: 1 when the section cannot scroll, else the clamped fraction scrolled. */
  function ScrollProgress(scrolled: real, sectionHeight: real, viewportH: real): (p: real)
    ensures 0.0 <= p <= 1.0
    ensures sectionHeight - viewportH <= 0.0 ==> p == 1.0
    ensures sectionHeight - viewportH > 0.0 ==> p == Clamp01(scrolled / (sectionHeight - viewportH))
  {
    var scrollableDistance := sectionHeight - viewportH;
    if scrollableDistance <= 0.0 then 1.0
    else Min(Max(scrolled / scrollableDistance, 0.0), 1.0)
  }

  /** In view iff the section's top is above mid-viewport and its bottom below it. */
  predicate InView(top: real, bottom: real, viewportH: real) {
    top < viewportH * 0.5 && bottom > viewportH * 0.5
  }

  /** `activeIndex`: the nearest dot to `progress * (count - 1)`, clamped to the dots. */
  function ActiveIndex(progress: real, count: int): (i: int)
    ensures count >= 1 ==> 0 <= i <= count - 1
  {
    MaxInt(0, MinInt(count - 1, Round(progress * (count - 1) as real)))
  }

  /** For a progress in [0, 1] the active dot is the waypoint the camera path's
      segment lookup reports. */
  lemma {:induction false} ActiveIndexIsNearestWaypoint(progress: real, count: int)
    requires count >= 1 && 0.0 <= progress <= 1.0
    ensures ActiveIndex(progress, count) == CameraPath.GetSegmentInfo(count, progress).index
  {
    assert Clamp01(progress) == progress;
  }

  predicate IsMobile(w: real) {
    w > 0.0 && w < MobileBreakpoint
  }

  /** `focusIntensity`, given the distance from the camera to the active project. */
  function FocusIntensity(inView: bool, activeDist: real): (f: real)
    requires activeDist >= 0.0
    ensures 0.0 <= f <= 1.0
    ensures !inView ==> f == 0.0
    ensures inView && activeDist >= 400.0 ==> f == 0.0
    ensures inView && activeDist < 400.0 ==> f == 1.0 - activeDist / 400.0
  {
    if inView then Max(0.0, 1.0 - activeDist / 400.0) else 0.0
  }

  /** The highlight written each render. */
  function SectionHighlight(mobile: bool, inView: bool, title: string, focus: real): (h: Highlight)
    ensures h.text == (if !mobile && inView then title else "")
    ensures mobile ==> h.intensity == 0.0
    ensures !mobile ==> h.intensity == focus
  {
    Highlight(if !mobile && inView then title else "", if mobile then 0.0 else focus)
  }

  /** The crosshair label `${Math.round(camera.x)}, ${scrollYCenter}` is kept as its two numbers. */
  datatype CrosshairLabel = NoLabel | Coords(x: int, y: real)
  datatype Crosshair = Crosshair(caption: CrosshairLabel, focused: bool, visible: bool)
  datatype XAxisData = XAxisData(cameraX: real, translateX: real, visible: bool)

  const HiddenCrosshair: Crosshair := Crosshair(NoLabel, false, false)
  const HiddenXAxis: XAxisData := XAxisData(0.0, 0.0, false)

  /** The three refs the section overwrites on every render. */
  class SectionRefs {
    var highlight: Highlight
    var crosshair: Crosshair
    var xAxis: XAxisData

    constructor ()
      ensures highlight == Highlight("", 0.0) && crosshair == HiddenCrosshair && xAxis == HiddenXAxis
    {
      highlight := Highlight("", 0.0);
      crosshair := HiddenCrosshair;
      xAxis := HiddenXAxis;
    }

    /** One render's writes. In view on desktop the crosshair and x axis follow
        the camera; leaving view on desktop with the crosshair shown hides both;
        otherwise (mobile) they keep their values. */
    method Render(viewportW: real, inView: bool, title: string, focus: real,
                  cameraX: real, translateX: real, scrollYCenter: real)
      modifies this
      ensures highlight == SectionHighlight(IsMobile(viewportW), inView, title, focus)
      ensures !IsMobile(viewportW) && inView ==>
        crosshair == Crosshair(Coords(Round(cameraX), scrollYCenter), focus > 0.8, true) &&
        xAxis == XAxisData(cameraX, translateX, true)
      ensures !IsMobile(viewportW) && !inView && old(crosshair).visible ==>
        crosshair == HiddenCrosshair && xAxis == HiddenXAxis
      ensures (IsMobile(viewportW) || (!inView && !old(crosshair).visible)) ==>
        crosshair == old(crosshair) && xAxis == old(xAxis)
      ensures !IsMobile(viewportW) && !inView ==> !crosshair.visible
    {
      var isMobile := viewportW > 0.0 && viewportW < 768.0;
      highlight := Highlight(if !isMobile && inView then title else "", if isMobile then 0.0 else focus);
      var crosshairFocused := focus > 0.8;
      if !isMobile && inView {
        crosshair := Crosshair(Coords(Round(cameraX), scrollYCenter), crosshairFocused, true);
        xAxis := XAxisData(cameraX, translateX, true);
      } else if !isMobile && !inView && crosshair.visible {
        crosshair := Crosshair(NoLabel, false, false);
        xAxis := XAxisData(0.0, 0.0, false);
      }
    }
  }

  /** The filled fraction of the connection line between waypoints a and b of a
      path with n + 1 waypoints. */
  function FillFraction(a: int, b: int, n: int, progress: real): (f: real)
    requires n > 0
    ensures 0.0 <= f <= 1.0
    ensures MaxInt(a, b) <= MinInt(a, b) ==> f == 0.0
    ensures MinInt(a, b) < MaxInt(a, b) && progress <= MinInt(a, b) as real / n as real ==> f == 0.0
    ensures MinInt(a, b) < MaxInt(a, b) && progress >= MaxInt(a, b) as real / n as real ==> f == 1.0
  {
    var startIdx := MinInt(a, b);
    var endIdx := MaxInt(a, b);
    var lineStartProgress := startIdx as real / n as real;
    var lineEndProgress := endIdx as real / n as real;
    var lineRange := lineEndProgress - lineStartProgress;
    if lineRange > 0.0 then
      assert (progress - lineStartProgress) / lineRange <= 0.0 <== progress <= lineStartProgress;
      assert (progress - lineStartProgress) / lineRange >= 1.0 <== progress >= lineEndProgress;
      Max(0.0, Min(1.0, (progress - lineStartProgress) / lineRange))
    else 0.0
  }

  /** The spotlight's fade after the pointer has been idle for `idle` ms. */
  function FadeFactor(idle: real): (f: real)
    ensures 0.0 <= f <= 1.0
    ensures idle < IdleThreshold ==> f == 1.0
    ensures idle >= IdleThreshold + FadeDuration ==> f == 0.0
    ensures IdleThreshold <= idle < IdleThreshold + FadeDuration ==> 0.0 < f <= 1.0
  {
    if idle < IdleThreshold then 1.0
    else Max(0.0, 1.0 - (idle - IdleThreshold) / FadeDuration)
  }

  /** A label's `--cursor-boost` at distance `dist` from the pointer. */
  function Boost(dist: real, fade: real): (b: real)
    requires dist >= 0.0 && 0.0 <= fade <= 1.0
    ensures 0.0 <= b <= 1.0
    ensures dist >= ProximityRadius ==> b == 0.0
    ensures b <= fade
  {
    var near := Max(0.0, 1.0 - dist / ProximityRadius);
    assert near * fade <= 1.0 * fade;
    near * fade
  }

  /** The pointer state of the label-proximity effect. */
  class LabelSpotlight {
    var mouseX: real
    var mouseY: real
    var lastMoveTime: real

    constructor ()
      ensures mouseX == -9999.0 && mouseY == -9999.0 && lastMoveTime == 0.0
    {
      mouseX := -9999.0;
      mouseY := -9999.0;
      lastMoveTime := 0.0;
    }

    /** `onPointerMove`: the idle clock restarts only when the pointer really moved. */
    method PointerMove(x: real, y: real, now: real)
      modifies this
      ensures mouseX == x && mouseY == y
      ensures (x != old(mouseX) || y != old(mouseY)) ==> lastMoveTime == now
      ensures (x == old(mouseX) && y == old(mouseY)) ==> lastMoveTime == old(lastMoveTime)
    {
      if x != mouseX || y != mouseY {
        lastMoveTime := now;
      }
      mouseX := x;
      mouseY := y;
    }

    /** One frame of `tick`: the boost of every label, given each label centre's
        distance from the pointer. */
    method Tick(now: real, dists: seq<real>) returns (boosts: seq<real>)
      requires forall i :: 0 <= i < |dists| ==> dists[i] >= 0.0
      ensures |boosts| == |dists|
      ensures forall i :: 0 <= i < |dists| ==> boosts[i] == Boost(dists[i], FadeFactor(now - lastMoveTime))
      ensures forall i :: 0 <= i < |dists| ==> 0.0 <= boosts[i] <= 1.0
      ensures now - lastMoveTime >= IdleThreshold + FadeDuration ==> forall i :: 0 <= i < |dists| ==> boosts[i] == 0.0
    {
      var idle := now - lastMoveTime;
      var fadeFactor := if idle < 2000.0 then 1.0 else Max(0.0, 1.0 - (idle - 2000.0) / 800.0);
      boosts := [];
      var i := 0;
      while i < |dists|
        invariant 0 <= i <= |dists| && |boosts| == i
        invariant forall j :: 0 <= j < i ==> boosts[j] == Boost(dists[j], fadeFactor)
      {
        boosts := boosts + [Boost(dists[i], fadeFactor)];
        i := i + 1;
      }
    }
  }
}
