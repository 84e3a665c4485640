/** The scatter/landed transform rules of src/utils/scatterTransforms.ts.
    A fragment "lands" on its resting offset once the focus passes 0.5; below
    that it is pushed 1.5 times further out and keeps its full rotation. Only
    the numeric parts of the CSS transform strings are modelled. */
module ScatterTransforms {
  import opened Common

  const FocusSnap: real := 0.5
  const ScatterScale: real := 1.5
  /** How much of its rotation a landed fragment keeps. */
  const LandedRotation: real := 0.35

  /** The numbers in `translate(calc(-50% + ox px), calc(-50% + oy px)) rotate(r deg)`. */
  datatype Transform = Transform(ox: real, oy: real, rotate: real)

  /** The numbers in `translate(ox px, oy px) rotate(r deg) scale(s)`. */
  datatype ChildTransform = ChildTransform(ox: real, oy: real, rotate: real, scale: real)

  /** Landed iff the focus is strictly above the snap threshold. */
  predicate Landed(focus: real) {
    focus > FocusSnap
  }

  /** `fragmentTransform(offsetX, offsetY, rotate, focus, hoverSpread)`. */
  function FragmentTransform(offsetX: real, offsetY: real, rotate: real, focus: real, hoverSpread: real): (t: Transform)
    ensures !Landed(focus) ==> t == Transform(offsetX * ScatterScale, offsetY * ScatterScale, rotate)
    ensures Landed(focus) ==> t == Transform(offsetX * hoverSpread, offsetY * hoverSpread, rotate * LandedRotation)
  {
    var landed := focus > FocusSnap;
    var ox := if landed then offsetX else offsetX * ScatterScale;
    var oy := if landed then offsetY else offsetY * ScatterScale;
    var r := if landed then rotate * 0.35 else rotate;
    if hoverSpread != 1.0 && landed then Transform(ox * hoverSpread, oy * hoverSpread, r)
    else Transform(ox, oy, r)
  }

  /** The hover spread only matters once landed: a scattered fragment ignores it,
      and a spread of 1 (the default) is no spread at all. */
  lemma HoverSpreadOnlyWhenLanded(offsetX: real, offsetY: real, rotate: real, focus: real, spread: real)
    ensures !Landed(focus) ==>
      FragmentTransform(offsetX, offsetY, rotate, focus, spread) == FragmentTransform(offsetX, offsetY, rotate, focus, 1.0)
    ensures Landed(focus) ==>
      FragmentTransform(offsetX, offsetY, rotate, focus, 1.0) == Transform(offsetX, offsetY, rotate * LandedRotation)
  {
  }

  /** A focus of exactly 0.5 still counts as scattered. */
  lemma SnapThresholdScatters(offsetX: real, offsetY: real, rotate: real, spread: real)
    ensures FragmentTransform(offsetX, offsetY, rotate, FocusSnap, spread)
         == Transform(offsetX * 1.5, offsetY * 1.5, rotate)
  {
  }

  /** `childScatter(scatterOffset, scatterRotate, focus, scaleRange?)`. */
  function ChildScatter(scatterX: real, scatterY: real, scatterRotate: real, focus: real,
                        scaleRange: Option<(real, real)>): (t: ChildTransform)
    ensures Landed(focus) ==> t == ChildTransform(0.0, 0.0, 0.0, 1.0)
    ensures !Landed(focus) ==> t.ox == scatterX && t.oy == scatterY && t.rotate == scatterRotate
    ensures !Landed(focus) ==> t.scale == (if scaleRange.Some? then scaleRange.value.0 else 1.0)
  {
    var landed := focus > FocusSnap;
    var ox := if landed then 0.0 else scatterX;
    var oy := if landed then 0.0 else scatterY;
    var r := if landed then 0.0 else scatterRotate;
    var s := if landed then 1.0 else if scaleRange.Some? then scaleRange.value.0 else 1.0;
    ChildTransform(ox, oy, r, s)
  }

  /** Landing is the identity transform whatever scale range is given. */
  lemma LandedChildIsIdentity(scatterX: real, scatterY: real, scatterRotate: real, focus: real,
                              a: Option<(real, real)>, b: Option<(real, real)>)
    requires Landed(focus)
    ensures ChildScatter(scatterX, scatterY, scatterRotate, focus, a)
         == ChildScatter(0.0, 0.0, 0.0, 1.0, b)
  {
  }
}
