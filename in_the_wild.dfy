/** The render-time arithmetic of src/components/InTheWild/index.tsx: a
    horizontal world of projects the camera dwells on first and then pans
    across, the closest-project search that drives the highlight, the
    connection-line fill, and the section's local scatter transforms. */
module InTheWild {
  import opened Common
  import ST = ScatterTransforms
  import ProjectSection

  const FocusRadius: real := 1400.0
  /** The first 15% of the scroll keeps the camera parked on the first project. */
  const Dwell: real := 0.15

  /** The world x of each project, in order. */
  const ProjectXs: seq<real> := [0.0, 2800.0, 5600.0]

  /** `handleScroll`'s progress. Unlike the project section there is no guard
      for a section that cannot scroll, so the distance must be non-zero. */
  function ScrollProgress(scrolled: real, sectionHeight: real, viewportH: real): (p: real)
    requires sectionHeight - viewportH != 0.0
    ensures 0.0 <= p <= 1.0
    ensures p == Clamp01(scrolled / (sectionHeight - viewportH))
    ensures sectionHeight - viewportH > 0.0 ==>
      p == ProjectSection.ScrollProgress(scrolled, sectionHeight, viewportH)
  {
    Min(Max(scrolled / (sectionHeight - viewportH), 0.0), 1.0)
  }

  /** `panProgress`. */
  function PanProgress(progress: real): (pan: real)
    ensures pan >= 0.0
    ensures progress <= Dwell ==> pan == 0.0
    ensures progress == 1.0 ==> pan == 1.0
    ensures progress <= 1.0 ==> pan <= 1.0
  {
    Max(0.0, (progress - Dwell) / (1.0 - Dwell))
  }

  /** `cameraX`: from the first project's x to the last one's. */
  function CameraX(xs: seq<real>, progress: real): (x: real)
    requires |xs| >= 1
    ensures progress <= Dwell ==> x == xs[0]
    ensures progress == 1.0 ==> x == xs[|xs| - 1]
  {
    var firstX := xs[0];
    var lastX := xs[|xs| - 1];
    firstX + PanProgress(progress) * (lastX - firstX)
  }

  /** The closest-project loop: starting from the first project at distance
      infinity (None), a project replaces the current choice only when strictly
      closer, so the earliest of equally close projects wins. */
  method ClosestProject(xs: seq<real>, cameraX: real) returns (closest: int, closestDist: real)
    requires |xs| >= 1
    ensures 0 <= closest < |xs| && closestDist == Abs(xs[closest] - cameraX)
    ensures forall j :: 0 <= j < |xs| ==> closestDist <= Abs(xs[j] - cameraX)
    ensures forall j :: 0 <= j < closest ==> closestDist < Abs(xs[j] - cameraX)
  {
    closest := 0;
    var best: Option<real> := None;
    var i := 0;
    while i < |xs|
      invariant 0 <= i <= |xs| && 0 <= closest < |xs|
      invariant i == 0 <==> best.None?
      invariant best.Some? ==> closest < i && best.value == Abs(xs[closest] - cameraX)
      invariant best.Some? ==> forall j :: 0 <= j < i ==> best.value <= Abs(xs[j] - cameraX)
      invariant best.Some? ==> forall j :: 0 <= j < closest ==> best.value < Abs(xs[j] - cameraX)
      invariant best.None? ==> closest == 0
    {
      var dist := Abs(xs[i] - cameraX);
      if best.None? || dist < best.value {
        best := Some(dist);
        closest := i;
      }
      i := i + 1;
    }
    closestDist := best.value;
  }

  /** `focusIntensity` from the closest project's distance. */
  function FocusIntensity(inView: bool, closestDist: real): (f: real)
    requires closestDist >= 0.0
    ensures 0.0 <= f <= 1.0
    ensures !inView ==> f == 0.0
    ensures inView ==> f == CardFocus(closestDist)
  {
    if inView then Max(0.0, 1.0 - closestDist / FocusRadius) else 0.0
  }

  /** The highlight written each render: the closest title while in view. */
  function WildHighlight(inView: bool, closestTitle: string, closestDist: real): (h: Highlight)
    requires closestDist >= 0.0
    ensures h.text == (if inView then closestTitle else "")
    ensures 0.0 <= h.intensity <= 1.0 && (!inView ==> h.intensity == 0.0)
  {
    Highlight(if inView then closestTitle else "", FocusIntensity(inView, closestDist))
  }

  /** Each card's own focus from its distance to the camera. */
  function CardFocus(dist: real): (f: real)
    requires dist >= 0.0
    ensures 0.0 <= f <= 1.0
    ensures dist == 0.0 ==> f == 1.0
    ensures dist >= FocusRadius ==> f == 0.0
  {
    Max(0.0, 1.0 - dist / FocusRadius)
  }

  /** The fill of the line from project i to project i + 1, with n = |projects| - 1 = 2. */
  function FillFraction(i: int, progress: real): (f: real)
    ensures f == ProjectSection.FillFraction(i, i + 1, 2, progress)
    ensures 0.0 <= f <= 1.0
  {
    var n := |ProjectXs| - 1;
    var lineStartProgress := i as real / n as real;
    var lineEndProgress := (i + 1) as real / n as real;
    var lineRange := lineEndProgress - lineStartProgress;
    if lineRange > 0.0 then Max(0.0, Min(1.0, (progress - lineStartProgress) / lineRange)) else 0.0
  }

  /** The section's own `fragmentTransform`, which has no hover spread. */
  function FragmentTransform(offsetX: real, offsetY: real, rotate: real, focus: real): (t: ST.Transform)
    ensures t == ST.FragmentTransform(offsetX, offsetY, rotate, focus, 1.0)
  {
    var landed := focus > 0.5;
    var ox := if landed then offsetX else offsetX * 1.5;
    var oy := if landed then offsetY else offsetY * 1.5;
    var r := if landed then rotate * 0.35 else rotate;
    ST.Transform(ox, oy, r)
  }

  /** The section's own `childScatter`, which has no scale component. */
  function ChildScatter(scatterX: real, scatterY: real, scatterRotate: real, focus: real): (t: ST.Transform)
    ensures var c := ST.ChildScatter(scatterX, scatterY, scatterRotate, focus, None);
            t == ST.Transform(c.ox, c.oy, c.rotate)
  {
    var landed := focus > 0.5;
    var ox := if landed then 0.0 else scatterX;
    var oy := if landed then 0.0 else scatterY;
    var r := if landed then 0.0 else scatterRotate;
    ST.Transform(ox, oy, r)
  }
}
