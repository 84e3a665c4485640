/** The vertical-axis tick overlay (src/components/GridTicks.tsx): a column of
    pre-built tick elements along the left edge, re-laid out on every scroll
    frame, with a requestAnimationFrame scheduler that coalesces scroll and
    resize events into at most one pending frame. */
module GridTicks {
  import opened Common
  import opened TickMath

  /** `Math.ceil(innerHeight / 200) + 2` elements (none when that is not positive). */
  function TickCount(h: real): (n: nat)
    ensures n as int == MaxInt(0, Ceil(h / 200.0) + 2)
  {
    MaxInt(0, Ceil(h / 200.0) + 2)
  }

  /** In a freshly built column of height `h` the closest value always has an
      element: its index `1 + ceil(h / 400)` is below `ceil(h / 200) + 2`. */
  lemma {:induction false} ClosestTickExists(h: real)
    requires h >= 0.0
    ensures 0 <= HighlightIndex(h) < TickCount(h)
  {
    CeilHalfBelow(h);
  }

  class GridOverlay {
    var ticks: seq<TickEl>
    /** `ticking`: an animation frame has been requested and has not run yet. */
    var ticking: bool
    var needsRebuild: bool
    /** The number of animation-frame callbacks currently scheduled. */
    var pendingFrames: nat
    /** The viewport height the current elements were built for. */
    ghost var builtFor: real

    /** The scheduler's bookkeeping: a frame is pending exactly while `ticking`. */
    predicate Valid()
      reads this
    {
      pendingFrames == (if ticking then 1 else 0)
    }

    /** The highlight can only be on the one index where the closest value can sit. */
    ghost predicate Stable()
      reads this
    {
      HighlightOnlyAt(ticks, HighlightIndex(builtFor))
    }

    /** The effect's mount: `buildTicks(); updatePositions();` with no frame pending. */
    constructor (sy: real, h: real)
      ensures Valid() && Stable()
      ensures !ticking && !needsRebuild
      ensures builtFor == h
      ensures ticks == LayoutAll(seq(TickCount(h), _ => FreshTick), sy, h)
    {
      ticks := seq(TickCount(h), _ => FreshTick);
      builtFor := h;
      ticking := false;
      needsRebuild := false;
      pendingFrames := 0;
      new;
      UpdatePositions(sy, h);
    }

    /** `buildTicks`: replaces every element with a fresh one. */
    method BuildTicks(h: real)
      modifies this
      ensures ticks == seq(TickCount(h), _ => FreshTick)
      ensures builtFor == h
      ensures Stable()
      ensures ticking == old(ticking) && needsRebuild == old(needsRebuild) && pendingFrames == old(pendingFrames)
    {
      ticks := seq(TickCount(h), _ => FreshTick);
      builtFor := h;
    }

    /** `updatePositions`: one pass over the elements at scroll offset `sy`. */
    method UpdatePositions(sy: real, h: real)
      modifies this
      ensures ticks == LayoutAll(old(ticks), sy, h)
      ensures old(Stable()) && builtFor == h ==> Stable()
      ensures builtFor == old(builtFor)
      ensures ticking == old(ticking) && needsRebuild == old(needsRebuild) && pendingFrames == old(pendingFrames)
    {
      var centerVal := sy + h / 2.0;
      var closestVal := Floor((centerVal + 100.0) / 200.0) * 200;
      var startVal := Floor(closestVal as real / 200.0 - h / 400.0 - 1.0) * 200;
      var children := ticks;
      var i := 0;
      while i < |children|
        invariant 0 <= i <= |children| == |ticks|
        invariant forall j :: 0 <= j < i ==>
          children[j] == LayoutTick(ticks[j], TickValue(startVal, j), TickValue(startVal, j) as real - sy, h, closestVal)
        invariant forall j :: i <= j < |children| ==> children[j] == ticks[j]
      {
        var val := startVal + i * 200;
        var screenY := val as real - sy;
        if screenY < -20.0 || screenY > h + 20.0 {
          children := children[i := children[i].(hidden := true)];
          i := i + 1;
          continue;
        }
        children := children[i := TickEl(false, Some(screenY), val == closestVal, Some(val))];
        i := i + 1;
      }
      ticks := children;
      if old(Stable()) && builtFor == h {
        LayoutKeepsHighlightAt(old(ticks), sy, h);
      }
    }

    /** `requestUpdate(rebuild)`: records the rebuild request and schedules a
        frame unless one is already pending. */
    method RequestUpdate(rebuild: bool)
      requires Valid()
      modifies this
      ensures Valid() && ticking
      ensures needsRebuild == (old(needsRebuild) || rebuild)
      ensures pendingFrames == 1
      ensures old(ticking) ==> pendingFrames == old(pendingFrames)
      ensures ticks == old(ticks) && builtFor == old(builtFor)
    {
      if rebuild {
        needsRebuild := true;
      }
      if ticking {
        return;
      }
      ticking := true;
      pendingFrames := pendingFrames + 1;
    }

    /** The scroll listener. */
    method OnScroll()
      requires Valid()
      modifies this
      ensures Valid() && ticking && pendingFrames == 1
      ensures needsRebuild == old(needsRebuild)
      ensures ticks == old(ticks) && builtFor == old(builtFor)
    {
      RequestUpdate(false);
    }

    /** The resize listener. */
    method OnResize()
      requires Valid()
      modifies this
      ensures Valid() && ticking && pendingFrames == 1 && needsRebuild
      ensures ticks == old(ticks) && builtFor == old(builtFor)
    {
      RequestUpdate(true);
    }

    /** The scheduled frame callback, run with the window's scroll offset and
        height at that moment: rebuilds once if a resize asked for it, then lays
        the elements out. */
    method RunFrame(sy: real, h: real)
      requires Valid() && ticking
      modifies this
      ensures Valid() && !ticking && !needsRebuild && pendingFrames == 0
      ensures ticks == LayoutAll(if old(needsRebuild) then seq(TickCount(h), _ => FreshTick) else old(ticks), sy, h)
      ensures builtFor == (if old(needsRebuild) then h else old(builtFor))
      ensures old(needsRebuild) || (old(Stable()) && old(builtFor) == h) ==> Stable()
    {
      ticking := false;
      pendingFrames := pendingFrames - 1;
      if needsRebuild {
        needsRebuild := false;
        BuildTicks(h);
      }
      UpdatePositions(sy, h);
    }
  }
}
