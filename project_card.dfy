/** The numeric rules of src/components/ProjectSection/ProjectCard.tsx: the
    sine-hash pseudo-random value, the tape placement drawn from it, the card's
    local copies of the scatter transforms, the sticky-note spread and the
    hover-while-landed rule. */
module ProjectCard {
  import opened Common
  import ST = ScatterTransforms

  const HoverSpread: real := 1.25

  /** `seededRand(seed)` takes the fractional part of `x = sin(seed * 127.1 + 311.7) * 43758.5453`;
      the sine product `x` is an input here. */
  function SeededRand(x: real): (r: real)
    ensures 0.0 <= r < 1.0
    ensures (x - r).Floor as real == x - r
  {
    x - Floor(x) as real
  }

  datatype TapeColor = Teal | Rose

  /** The numeric part of `computeTapePlacement`; the rotation is formatted with
      one decimal, which this model leaves out. */
  datatype TapePlacement = TapePlacement(width: int, rotate: real, color: TapeColor)

  /** `computeTapePlacement(seed)`, given the three sine products for seed, seed + 1, seed + 2. */
  function ComputeTapePlacement(x1: real, x2: real, x3: real): (p: TapePlacement)
    ensures 80 <= p.width <= 109
    ensures -4.0 <= p.rotate < 4.0
    ensures p.color == Teal <==> SeededRand(x3) > 0.5
  {
    var r1 := SeededRand(x1);
    var r2 := SeededRand(x2);
    var width := 80 + Floor(r1 * 30.0);
    var rotate := -4.0 + r2 * 8.0;
    var color := if SeededRand(x3) > 0.5 then Teal else Rose;
    TapePlacement(width, rotate, color)
  }

  /** The card's own `fragmentTransform(offset, rotate, focus, hovered)`. */
  function FragmentTransform(offset: (real, real), rotate: real, focus: real, hovered: bool): (t: ST.Transform)
    ensures !ST.Landed(focus) ==> t == ST.Transform(offset.0 * 1.5, offset.1 * 1.5, rotate)
    ensures ST.Landed(focus) && !hovered ==> t == ST.Transform(offset.0, offset.1, rotate * 0.35)
    ensures ST.Landed(focus) && hovered ==> t == ST.Transform(offset.0 * HoverSpread, offset.1 * HoverSpread, rotate * 0.35)
  {
    var landed := focus > 0.5;
    var ox := if landed then offset.0 else offset.0 * 1.5;
    var oy := if landed then offset.1 else offset.1 * 1.5;
    var r := if landed then rotate * 0.35 else rotate;
    if hovered && landed then ST.Transform(ox * HoverSpread, oy * HoverSpread, r)
    else ST.Transform(ox, oy, r)
  }

  /** The local copy agrees with the shared helper called with spread 1.25 when
      hovered and 1 otherwise. */
  lemma FragmentTransformAgrees(offset: (real, real), rotate: real, focus: real, hovered: bool)
    ensures FragmentTransform(offset, rotate, focus, hovered)
         == ST.FragmentTransform(offset.0, offset.1, rotate, focus, if hovered then HoverSpread else 1.0)
  {
  }

  /** The card's own `childScatter`, identical in behaviour to the shared one. */
  function ChildScatter(scatterOffset: (real, real), scatterRotate: real, focus: real,
                        scaleRange: Option<(real, real)>): (t: ST.ChildTransform)
    ensures t == ST.ChildScatter(scatterOffset.0, scatterOffset.1, scatterRotate, focus, scaleRange)
  {
    var landed := focus > 0.5;
    var ox := if landed then 0.0 else scatterOffset.0;
    var oy := if landed then 0.0 else scatterOffset.1;
    var r := if landed then 0.0 else scatterRotate;
    var s := if landed then 1.0 else if scaleRange.Some? then scaleRange.value.0 else 1.0;
    ST.ChildTransform(ox, oy, r, s)
  }

  /** The sticky notes' extra spread: 1.25 only when hovered and landed. */
  function StickySpread(hovered: bool, focus: real): (s: real)
    ensures s == HoverSpread <==> hovered && ST.Landed(focus)
    ensures s == 1.0 <==> !(hovered && ST.Landed(focus))
  {
    if hovered && focus > 0.5 then HoverSpread else 1.0
  }

  /** The card's `hovered` state together with the focus it was last rendered with. */
  class CardHover {
    var hovered: bool
    var focus: real

    /** A card is never hovered while scattered. */
    predicate Valid()
      reads this
    {
      hovered ==> ST.Landed(focus)
    }

    constructor (focus0: real)
      ensures Valid() && !hovered && focus == focus0
    {
      hovered := false;
      focus := focus0;
    }

    /** A render with a new focus: `if (!isLanded && hovered) setHovered(false)`. */
    method Render(newFocus: real)
      modifies this
      ensures Valid() && focus == newFocus
      ensures hovered == (old(hovered) && ST.Landed(newFocus))
    {
      focus := newFocus;
      if !(focus > 0.5) && hovered {
        hovered := false;
      }
    }

    /** `onPointerEnter`: hovering is taken up only by a landed card. */
    method PointerEnter()
      requires Valid()
      modifies this
      ensures Valid() && focus == old(focus)
      ensures hovered == (old(hovered) || ST.Landed(focus))
    {
      if focus > 0.5 {
        hovered := true;
      }
    }

    /** `onPointerLeave`. */
    method PointerLeave()
      modifies this
      ensures Valid() && !hovered && focus == old(focus)
    {
      hovered := false;
    }

    /** The landing effect: a card that lands under a pointer already inside it
        (`matches(":hover")`) becomes hovered at once. */
    method LandedEffect(pointerInside: bool)
      requires Valid()
      modifies this
      ensures Valid() && focus == old(focus)
      ensures hovered == (old(hovered) || (ST.Landed(focus) && pointerInside))
    {
      if focus > 0.5 && pointerInside {
        hovered := true;
      }
    }
  }
}
