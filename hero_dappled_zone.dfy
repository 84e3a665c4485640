/** The scroll-driven "polaroid" transition of src/components/HeroDappledZone/index.tsx:
    as the sticky hero scrolls, a full-screen clip closes onto the inset of a
    square photo inside a card frame, the vignette fades out, then the frame,
    and last the tape and caption fade in. Only the numeric parts of the style
    strings are modelled. */
module HeroDappledZone {
  import opened Common

  const FramePadTop: real := 12.0
  const FramePadSide: real := 12.0
  const FramePadBottom: real := 40.0
  const MobileBreakpoint: real := 768.0

  /** `lerp(a, b, t)`. */
  function Lerp(a: real, b: real, t: real): (r: real)
    ensures t == 0.0 ==> r == a
    ensures t == 1.0 ==> r == b
  {
    a + (b - a) * t
  }

  /** `clamp(v, min, max)`. */
  function Clamp(v: real, lo: real, hi: real): (r: real)
    ensures lo <= hi ==> lo <= r <= hi
    ensures lo <= v <= hi ==> r == v
  {
    Max(lo, Min(hi, v))
  }

  /** `ranged(progress, start, end)`; every caller passes start < end. */
  function Ranged(progress: real, start: real, end: real): (r: real)
    requires start < end
    ensures 0.0 <= r <= 1.0
    ensures progress <= start ==> r == 0.0
    ensures progress >= end ==> r == 1.0
    ensures start < progress < end ==> r == (progress - start) / (end - start)
  {
    QuotientBounds(progress - start, end - start);
    Clamp((progress - start) / (end - start), 0.0, 1.0)
  }

  /** Ranged is monotone in the progress. */
  lemma RangedMonotone(p: real, q: real, start: real, end: real)
    requires start < end && p <= q
    ensures Ranged(p, start, end) <= Ranged(q, start, end)
  {
    DivMonotone(p - start, q - start, end - start);
  }

  /** The clip-path insets, in percent of the viewport. */
  datatype Insets = Insets(top: real, side: real, bottom: real)

  function CardWidth(vw: real): (w: real)
    ensures vw < MobileBreakpoint ==> w == vw * 0.9
    ensures vw >= MobileBreakpoint ==> w == Min(760.0, vw * 0.6)
  {
    if vw < MobileBreakpoint then vw * 0.9 else Min(760.0, vw * 0.6)
  }

  function MinMargin(vw: real): real {
    if vw < MobileBreakpoint then 16.0 else 40.0
  }

  /** The square image's side: fits the card's width and the viewport's height. */
  function ImageSize(vw: real, vh: real): (s: real)
    ensures s <= CardWidth(vw) - 2.0 * FramePadSide
    ensures s <= Max(0.0, vh - FramePadTop - FramePadBottom - 2.0 * MinMargin(vw))
    ensures s == CardWidth(vw) - 2.0 * FramePadSide || s == Max(0.0, vh - FramePadTop - FramePadBottom - 2.0 * MinMargin(vw))
  {
    var imageFromWidth := CardWidth(vw) - 2.0 * FramePadSide;
    var imageFromHeight := vh - FramePadTop - FramePadBottom - 2.0 * MinMargin(vw);
    Min(imageFromWidth, Max(0.0, imageFromHeight))
  }

  /** The card's top edge, in px: centred, but never closer to the top than the margin. */
  function TopOfCard(vw: real, vh: real): (t: real)
    ensures t >= MinMargin(vw)
    ensures t >= (vh - (FramePadTop + ImageSize(vw, vh) + FramePadBottom)) / 2.0
  {
    var cardHeight := FramePadTop + ImageSize(vw, vh) + FramePadBottom;
    Max(MinMargin(vw), (vh - cardHeight) / 2.0)
  }

  /** `getTargetInsets(vw, vh)`. */
  function GetTargetInsets(vw: real, vh: real): Insets
    requires vw > 0.0 && vh > 0.0
  {
    var imageSize := ImageSize(vw, vh);
    var sideInset := ((vw - imageSize) / 2.0 / vw) * 100.0;
    var topOfImage := TopOfCard(vw, vh) + FramePadTop;
    Insets((topOfImage / vh) * 100.0, sideInset, Max(0.0, ((vh - topOfImage - imageSize) / vh) * 100.0))
  }

  /** The target insets place the image below the card's top pad, leave a
      margin at both sides, and never give a negative bottom inset; both
      dimensions of a rendered window are positive. */
  lemma TargetInsetsBounds(vw: real, vh: real)
    requires vw > 0.0 && vh > 0.0
    ensures var r := GetTargetInsets(vw, vh);
      r.top == (TopOfCard(vw, vh) + FramePadTop) / vh * 100.0 && r.top > 0.0 &&
      r.side == (vw - ImageSize(vw, vh)) / 2.0 / vw * 100.0 && r.side > 0.0 &&
      r.bottom >= 0.0
  {
    var imageSize := ImageSize(vw, vh);
    assert vw - imageSize > 0.0 by {
      assert CardWidth(vw) <= vw * 0.9;
    }
    assert (TopOfCard(vw, vh) + FramePadTop) / vh > 0.0;
    assert (vw - imageSize) / 2.0 / vw > 0.0;
  }

  /** Everything `handleScroll` writes, as numbers: the clip insets and corner
      radius, the three opacities, whether the frame casts its shadow, the frame's
      pixel pads beyond the clip, and the tape's and caption's anchoring insets. */
  datatype Styles = Styles(
    clip: Insets, radius: real,
    gradientOpacity: real, frameOpacity: real, frameShadow: bool,
    framePads: Insets,
    tapeOpacity: real, tapeTop: real, captionOpacity: real, captionBottom: real)

  /** The styles for a progress in [0, 1] towards the target insets of a vw × vh window. */
  function ScrollStyles(progress: real, target: Insets): Styles
  {
    var top := Lerp(0.0, target.top, progress);
    var side := Lerp(0.0, target.side, progress);
    var bottom := Lerp(0.0, target.bottom, progress);
    var radius := Lerp(0.0, 3.0, progress);
    var frameFade := Ranged(progress, 0.3, 0.7);
    Styles(Insets(top, side, bottom), radius,
           1.0 - Ranged(progress, 0.0, 0.3), frameFade, frameFade > 0.0,
           Insets(Lerp(0.0, FramePadTop, progress), Lerp(0.0, FramePadSide, progress), Lerp(0.0, FramePadBottom, progress)),
           Ranged(progress, 0.7, 0.9), target.top, Ranged(progress, 0.7, 0.9), target.bottom)
  }

  /** The three fades run one after the other: the frame appears only once the
      vignette is gone, and the tape and caption only once the frame is fully shown. */
  lemma {:induction false} FadesInSequence(progress: real, target: Insets)
    ensures var s := ScrollStyles(progress, target);
      (s.frameOpacity > 0.0 ==> s.gradientOpacity == 0.0) &&
      (s.frameShadow <==> s.frameOpacity > 0.0) &&
      (s.tapeOpacity > 0.0 ==> s.frameOpacity == 1.0) &&
      s.captionOpacity == s.tapeOpacity
  {
    var s := ScrollStyles(progress, target);
    if s.frameOpacity > 0.0 {
      assert progress > 0.3;
    }
    if s.tapeOpacity > 0.0 {
      assert progress > 0.7;
    }
  }

  /** The transition starts full-screen with square corners. */
  lemma TransitionStartsFullScreen(target: Insets)
    ensures ScrollStyles(0.0, target).clip == Insets(0.0, 0.0, 0.0)
    ensures ScrollStyles(0.0, target).radius == 0.0
  {
  }

  /** Up to 30% of the way only the vignette shows, fading out; the frame,
      its shadow, the tape and the caption are all invisible. */
  lemma {:induction false} OnlyVignetteEarly(progress: real, target: Insets)
    requires 0.0 <= progress <= 0.3
    ensures ScrollStyles(progress, target).gradientOpacity == 1.0 - progress / 0.3
    ensures ScrollStyles(progress, target).frameOpacity == 0.0 && !ScrollStyles(progress, target).frameShadow
    ensures ScrollStyles(progress, target).tapeOpacity == 0.0 && ScrollStyles(progress, target).captionOpacity == 0.0
  {
    var g := Ranged(progress, 0.0, 0.3);
    assert g == progress / 0.3;
  }

  /** The transition ends on the target insets with every fade complete. */
  lemma TransitionEnd(target: Insets)
    ensures ScrollStyles(1.0, target).clip == target
    ensures ScrollStyles(1.0, target).radius == 3.0
    ensures ScrollStyles(1.0, target).gradientOpacity == 0.0
    ensures ScrollStyles(1.0, target).frameOpacity == 1.0
    ensures ScrollStyles(1.0, target).tapeOpacity == 1.0 && ScrollStyles(1.0, target).captionOpacity == 1.0
  {
  }

  /** The DOM styles of the zone's elements. */
  class Zone {
    var styles: Styles

    constructor (initial: Styles)
      ensures styles == initial
    {
      styles := initial;
    }

    /** `handleScroll`: nothing happens while the section cannot scroll;
        otherwise the clamped scroll progress drives every style. */
    method HandleScroll(rectTop: real, offsetHeight: real, vw: real, vh: real)
      requires vw > 0.0 && vh > 0.0
      modifies this
      ensures offsetHeight - vh <= 0.0 ==> styles == old(styles)
      ensures offsetHeight - vh > 0.0 ==>
        styles == ScrollStyles(Clamp(-rectTop / (offsetHeight - vh), 0.0, 1.0), GetTargetInsets(vw, vh))
    {
      var stickyRange := offsetHeight - vh;
      if stickyRange > 0.0 {
        var target := GetTargetInsets(vw, vh);
        var progress := Clamp(-rectTop / stickyRange, 0.0, 1.0);
        styles := ScrollStyles(progress, target);
      }
    }
  }
}
