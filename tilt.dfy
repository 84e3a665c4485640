/** The card-tilt hook of src/hooks/useTilt.ts: pointer moves set a target
    rotation, and an animation-frame loop eases the current rotation toward it
    (faster while the pointer is over the card), writes the transform and the
    sheen's centre, and stops, snapping to rest, once the pointer has left and
    the rotation is within the dead zone. Only the numbers behind the style
    strings are modelled. */
module Tilt {
  import opened Common

  const MaxTilt: real := 6.0
  const LerpAttack: real := 0.08
  const LerpDecay: real := 0.04
  const TiltDead: real := 0.01

  /** A rotation about the x and y axes, in degrees. */
  datatype Angles = Angles(rx: real, ry: real)

  const Rest: Angles := Angles(0.0, 0.0)

  /** `c += (t - c) * lerp`. */
  function Ease(c: real, t: real, f: real): real {
    c + (t - c) * f
  }

  /** Each easing step closes the gap to the target by the factor: the new gap
      is (1 - f) times the old, so it shrinks whenever there is one, and the
      value lands between where it was and the target. */
  lemma {:induction false} EaseShrinks(c: real, t: real, f: real)
    requires 0.0 < f < 1.0
    ensures Abs(Ease(c, t, f) - t) == (1.0 - f) * Abs(c - t)
    ensures c != t ==> Abs(Ease(c, t, f) - t) < Abs(c - t)
    ensures Min(c, t) <= Ease(c, t, f) <= Max(c, t)
  {
    var g, k := Abs(c - t), 1.0 - f;
    assert Abs(Ease(c, t, f) - t) == k * g by {
      if c >= t {
        MulNonneg(k, c - t);
        assert Ease(c, t, f) - t == k * (c - t);
      } else {
        MulNonneg(k, t - c);
        assert Ease(c, t, f) - t == -(k * (t - c));
      }
    }
    assert g - k * g == f * g;
    if c != t {
      assert f * g > 0.0;
    }
    if c < t {
      assert (t - c) * f <= (t - c);
    } else if c > t {
      assert (c - t) * f <= (c - t);
    }
  }

  /** The easing factor: 0.08 while the pointer is over the card, 0.04 after it left. */
  function LerpFactor(active: bool): real {
    if active then LerpAttack else LerpDecay
  }

  /** One frame of the loop's `tick`: the eased rotation, and whether the loop
      is done, in which case the rotation snaps to rest. */
  function TickStep(target: Angles, current: Angles, active: bool): (Angles, bool) {
    var f := LerpFactor(active);
    var c := Angles(Ease(current.rx, target.rx, f), Ease(current.ry, target.ry, f));
    var done := !active && Abs(c.rx) < TiltDead && Abs(c.ry) < TiltDead;
    if done then (Rest, true) else (c, false)
  }

  /** The loop stops exactly when the pointer has left and both eased angles
      are inside the dead zone; it then rests at (0, 0). Otherwise both angles
      move toward the target by the active or inactive factor. */
  lemma {:induction false} TickStepDone(target: Angles, current: Angles, active: bool)
    ensures var (next, done) := TickStep(target, current, active);
      var f := LerpFactor(active);
      (done <==> !active && Abs(Ease(current.rx, target.rx, f)) < TiltDead &&
                 Abs(Ease(current.ry, target.ry, f)) < TiltDead) &&
      (done ==> next == Rest) &&
      (!done ==> next == Angles(Ease(current.rx, target.rx, f), Ease(current.ry, target.ry, f)))
  {
  }

  /** While the loop runs on, each frame strictly closes the gap to the target
      on every axis that has one. */
  lemma {:induction false} TickApproachesTarget(target: Angles, current: Angles, active: bool)
    requires !TickStep(target, current, active).1
    ensures var next := TickStep(target, current, active).0;
      Abs(next.rx - target.rx) <= Abs(current.rx - target.rx) &&
      Abs(next.ry - target.ry) <= Abs(current.ry - target.ry) &&
      (current.rx != target.rx ==> Abs(next.rx - target.rx) < Abs(current.rx - target.rx)) &&
      (current.ry != target.ry ==> Abs(next.ry - target.ry) < Abs(current.ry - target.ry))
  {
    var f := LerpFactor(active);
    EaseShrinks(current.rx, target.rx, f);
    EaseShrinks(current.ry, target.ry, f);
  }

  /** After the pointer left (target at rest), a frame that does not stop the
      loop scales both angles by 0.96. */
  lemma {:induction false} DecayTowardRest(current: Angles)
    requires !TickStep(Rest, current, false).1
    ensures TickStep(Rest, current, false).0 == Angles(0.96 * current.rx, 0.96 * current.ry)
  {
  }

  /** Angles within ±6 degrees. */
  predicate InTiltRange(a: Angles) {
    -MaxTilt <= a.rx <= MaxTilt && -MaxTilt <= a.ry <= MaxTilt
  }

  /** Easing toward a target in range keeps a rotation in range. */
  lemma {:induction false} TickStaysInRange(target: Angles, current: Angles, active: bool)
    requires InTiltRange(target) && InTiltRange(current)
    ensures InTiltRange(TickStep(target, current, active).0)
  {
    var f := LerpFactor(active);
    EaseShrinks(current.rx, target.rx, f);
    EaseShrinks(current.ry, target.ry, f);
  }

  /** The element's bounding rectangle. */
  datatype Rect = Rect(left: real, top: real, width: real, height: real)

  /** `onPointerMove`'s target: the pointer's position normalised to [-1, 1]
      across the element, turned into a rotation of up to 6 degrees. */
  function MoveTarget(clientX: real, clientY: real, rect: Rect): Angles
    requires rect.width > 0.0 && rect.height > 0.0
  {
    var nx := ((clientX - rect.left) / rect.width) * 2.0 - 1.0;
    var ny := ((clientY - rect.top) / rect.height) * 2.0 - 1.0;
    Angles(-ny * MaxTilt, nx * MaxTilt)
  }

  /** A pointer inside the element gives a target within ±6 degrees; the
      pointer's horizontal position drives the y rotation, the vertical one the
      x rotation (upward tilt at the top edge). */
  lemma {:induction false} MoveTargetInRange(clientX: real, clientY: real, rect: Rect)
    requires rect.width > 0.0 && rect.height > 0.0
    requires rect.left <= clientX <= rect.left + rect.width
    requires rect.top <= clientY <= rect.top + rect.height
    ensures InTiltRange(MoveTarget(clientX, clientY, rect))
    ensures clientY == rect.top ==> MoveTarget(clientX, clientY, rect).rx == MaxTilt
    ensures clientX == rect.left + rect.width ==> MoveTarget(clientX, clientY, rect).ry == MaxTilt
  {
    QuotientBounds(clientX - rect.left, rect.width);
    QuotientBounds(clientY - rect.top, rect.height);
    assert (clientX - rect.left) / rect.width <= 1.0;
    assert (clientY - rect.top) / rect.height <= 1.0;
  }

  /** The centre of the sheen's radial gradient, in percent of the card. */
  datatype SheenCentre = SheenCentre(x: real, y: real)

  /** While tilting, the sheen slides opposite to the rotation. */
  function TiltSheen(c: Angles): SheenCentre {
    SheenCentre(50.0 - (c.ry / MaxTilt) * 30.0, 50.0 + (c.rx / MaxTilt) * 30.0)
  }

  /** At rest, `computeRestingSheen` shifts the centre toward the camera offset. */
  function RestingSheen(offset: (real, real)): SheenCentre {
    SheenCentre(50.0 + offset.0 * 20.0, 50.0 + offset.1 * 20.0)
  }

  /** A rotation within ±6 degrees keeps the sheen's centre within [20, 80]
      percent on both axes; at rest with a centred camera both sheens agree. */
  lemma {:induction false} SheenInCard(c: Angles)
    requires InTiltRange(c)
    ensures 20.0 <= TiltSheen(c).x <= 80.0 && 20.0 <= TiltSheen(c).y <= 80.0
    ensures TiltSheen(Rest) == RestingSheen((0.0, 0.0))
  {
  }

  /** The hook's refs and the two styles its loop writes. */
  class TiltHook {
    const reducedMotion: bool
    var target: Angles
    var current: Angles
    /** `rafRef.current != 0`: a frame is scheduled. */
    var running: bool
    var active: bool
    var cameraOffset: (real, real)
    /** The inner element's transform; None is the cleared `''`. */
    var transform: Option<Angles>
    var sheen: SheenCentre

    /** Targets come from pointer moves inside the card, and the rotation
        stays between rest and them. */
    ghost predicate Valid()
      reads this
    {
      InTiltRange(target) && InTiltRange(current)
    }

    constructor (reducedMotion: bool, cameraOffset: (real, real))
      ensures this.reducedMotion == reducedMotion && this.cameraOffset == cameraOffset
      ensures target == Rest && current == Rest && !running && !active
      ensures transform == None && sheen == RestingSheen(cameraOffset)
      ensures Valid()
    {
      this.reducedMotion := reducedMotion;
      this.cameraOffset := cameraOffset;
      target := Rest;
      current := Rest;
      running := false;
      active := false;
      transform := None;
      sheen := RestingSheen(cameraOffset);
    }

    /** `startLoop`: schedules the first frame unless a loop already runs. */
    method StartLoop()
      modifies this
      ensures running
      ensures target == old(target) && current == old(current) && active == old(active)
      ensures transform == old(transform) && sheen == old(sheen)
    {
      if running {
        return;
      }
      running := true;
    }

    /** One animation frame of the loop. */
    method Frame()
      requires running && Valid()
      modifies this
      ensures Valid()
      ensures current == TickStep(old(target), old(current), old(active)).0
      ensures running == !TickStep(old(target), old(current), old(active)).1
      ensures !running ==> transform == None && sheen == RestingSheen(cameraOffset) && current == Rest
      ensures running ==> transform == Some(current) && sheen == TiltSheen(current)
      ensures target == old(target) && active == old(active)
    {
      var f := if active then LerpAttack else LerpDecay;
      TickStaysInRange(target, current, active);
      current := Angles(current.rx + (target.rx - current.rx) * f, current.ry + (target.ry - current.ry) * f);
      var done := !active && Abs(current.rx) < TiltDead && Abs(current.ry) < TiltDead;
      if done {
        current := Rest;
        transform := None;
        sheen := RestingSheen(cameraOffset);
        running := false;
        return;
      }
      transform := Some(current);
      sheen := TiltSheen(current);
    }

    /** `onPointerEnter`: ignored in reduced motion; otherwise the card becomes
        active and the loop starts. */
    method PointerEnter()
      modifies this
      ensures reducedMotion ==> active == old(active) && running == old(running)
      ensures !reducedMotion ==> active && running
      ensures target == old(target) && current == old(current)
      ensures transform == old(transform) && sheen == old(sheen)
    {
      if reducedMotion {
        return;
      }
      active := true;
      StartLoop();
    }

    /** `onPointerLeave`: inactive, aiming back at rest; the running loop decays. */
    method PointerLeave()
      requires Valid()
      modifies this
      ensures !active && target == Rest && Valid()
      ensures current == old(current) && running == old(running)
      ensures transform == old(transform) && sheen == old(sheen)
    {
      active := false;
      target := Rest;
    }

    /** `onPointerMove` for a pointer inside the card: ignored while inactive
        or in reduced motion. */
    method PointerMove(clientX: real, clientY: real, rect: Rect)
      requires Valid()
      requires rect.width > 0.0 && rect.height > 0.0
      requires rect.left <= clientX <= rect.left + rect.width
      requires rect.top <= clientY <= rect.top + rect.height
      modifies this
      ensures Valid()
      ensures (!old(active) || reducedMotion) ==> target == old(target)
      ensures old(active) && !reducedMotion ==> target == MoveTarget(clientX, clientY, rect)
      ensures active == old(active) && current == old(current) && running == old(running)
      ensures transform == old(transform) && sheen == old(sheen)
    {
      if !active || reducedMotion {
        return;
      }
      MoveTargetInRange(clientX, clientY, rect);
      var nx := ((clientX - rect.left) / rect.width) * 2.0 - 1.0;
      var ny := ((clientY - rect.top) / rect.height) * 2.0 - 1.0;
      target := Angles(-ny * MaxTilt, nx * MaxTilt);
    }
  }
}
