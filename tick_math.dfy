/** The nearest-tick and tick-window arithmetic shared by the two axis overlays
    (GridTicks.tsx for the vertical axis, XAxisTicks.tsx for the horizontal one).
    Ticks sit every 200 px of world space; the overlay highlights the tick value
    nearest the centre of the viewport and lays out a window of ticks anchored
    on that value. */
module TickMath {
  import opened Common

  const Interval: int := 200
  /** A tick is hidden once its screen position is further than this outside the viewport. */
  const Margin: real := 20.0

  /** `Math.floor((centerVal + 100) / 200) * 200`: the tick value nearest the centre. */
  function ClosestValue(center: real): int {
    Floor((center + 100.0) / 200.0) * Interval
  }

  /** `Math.floor(closestVal / 200 - extent / 400 - 1) * 200`: the first value of the window. */
  function WindowStart(closest: int, extent: real): int {
    Floor(closest as real / 200.0 - extent / 400.0 - 1.0) * Interval
  }

  /** The value carried by tick number i of a window starting at `start`. */
  function TickValue(start: int, i: int): int {
    start + i * Interval
  }

  /** A tick is hidden iff its screen coordinate lies outside [-20, extent + 20]. */
  predicate Hidden(screen: real, extent: real) {
    screen < -Margin || screen > extent + Margin
  }

  /** The index of the tick that carries the closest value, for a given extent. */
  function HighlightIndex(extent: real): int {
    1 + Ceil(extent / 400.0)
  }

  /** The closest value is a multiple of 200 and lies in (center - 100, center + 100]. */
  lemma ClosestValueNearest(center: real)
    ensures ClosestValue(center) % Interval == 0
    ensures center - 100.0 < ClosestValue(center) as real <= center + 100.0
  {
    var k := Floor((center + 100.0) / 200.0);
    assert k as real <= (center + 100.0) / 200.0 < k as real + 1.0;
    assert ClosestValue(center) == k * 200;
  }

  /** The window start is a multiple of 200 and lies below the closest value. */
  lemma WindowStartMultiple(closest: int, extent: real)
    requires extent >= 0.0
    ensures WindowStart(closest, extent) % Interval == 0
    ensures WindowStart(closest, extent) < closest
  {
  }

  /** Within the window anchored on a closest value, tick i carries that value
      exactly when i is `1 + ceil(extent / 400)`. */
  lemma {:induction false} HighlightIndexExact(center: real, extent: real, i: int)
    ensures var closest := ClosestValue(center);
            TickValue(WindowStart(closest, extent), i) == closest <==> i == HighlightIndex(extent)
  {
    var k := Floor((center + 100.0) / 200.0);
    var closest := ClosestValue(center);
    assert closest == k * 200;
    assert closest as real / 200.0 == k as real;
    FloorShift(k - 1, -(extent / 400.0));
    assert closest as real / 200.0 - extent / 400.0 - 1.0 == (k - 1) as real + -(extent / 400.0);
    assert Floor(-(extent / 400.0)) == -Ceil(extent / 400.0);
    assert WindowStart(closest, extent) == (k - 1 - Ceil(extent / 400.0)) * 200;
  }

  /** ceil(e / 400) <= ceil(e / 200) for a non-negative extent. */
  lemma CeilHalfBelow(extent: real)
    requires extent >= 0.0
    ensures Ceil(extent / 400.0) <= Ceil(extent / 200.0)
  {
  }

  /** A viewport at least 160 px tall (or wide) always shows its closest tick. */
  lemma {:induction false} ClosestTickOnScreen(center: real, extent: real, offset: real)
    requires extent >= 160.0
    requires center == offset + extent / 2.0
    ensures !Hidden(ClosestValue(center) as real - offset, extent)
  {
    ClosestValueNearest(center);
  }

  /** What the overlay leaves in one tick element. */
  datatype TickEl = TickEl(hidden: bool, pos: Option<real>, highlighted: bool, text: Option<int>)

  /** A freshly built tick: displayed, unpositioned, unhighlighted, with an empty label text. */
  const FreshTick: TickEl := TickEl(false, None, false, None)

  /** The effect of one pass of the layout loop on tick element `t` with value `val`
      placed at screen coordinate `screen`: a hidden tick keeps its position, label
      and highlight class; a shown one is positioned, labelled with its value and
      highlighted iff its value is the closest value. */
  function LayoutTick(t: TickEl, val: int, screen: real, extent: real, closest: int): (r: TickEl)
    ensures r.hidden <==> Hidden(screen, extent)
    ensures r.hidden ==> r.pos == t.pos && r.text == t.text && r.highlighted == t.highlighted
    ensures !r.hidden ==> r.pos == Some(screen) && r.text == Some(val) && (r.highlighted <==> val == closest)
  {
    if Hidden(screen, extent) then t.(hidden := true)
    else TickEl(false, Some(screen), val == closest, Some(val))
  }

  /** At most the element at index k carries the highlight classes. */
  predicate HighlightOnlyAt(ticks: seq<TickEl>, k: int) {
    forall j :: 0 <= j < |ticks| && ticks[j].highlighted ==> j == k
  }

  /** The tick elements after one layout pass: `lead` is the world coordinate at the
      viewport's leading edge (the scroll offset; minus the translation on the
      horizontal axis) and `extent` the viewport's extent along the axis. */
  function LayoutAll(ticks: seq<TickEl>, lead: real, extent: real): (r: seq<TickEl>)
    ensures |r| == |ticks|
    ensures forall j :: 0 <= j < |r| ==>
      var val := TickValue(WindowStart(ClosestValue(lead + extent / 2.0), extent), j);
      (r[j].hidden <==> Hidden(val as real - lead, extent)) &&
      (!r[j].hidden ==> r[j].pos == Some(val as real - lead) && r[j].text == Some(val) &&
                         (r[j].highlighted <==> val == ClosestValue(lead + extent / 2.0)))
  {
    var closest := ClosestValue(lead + extent / 2.0);
    var start := WindowStart(closest, extent);
    seq(|ticks|, j requires 0 <= j < |ticks| =>
      LayoutTick(ticks[j], TickValue(start, j), TickValue(start, j) as real - lead, extent, closest))
  }

  /** A layout pass over a viewport of that extent keeps the highlight on the one index
      `1 + ceil(extent / 400)` at which the closest value can sit: hidden ticks keep
      their stale classes, and a shown tick is highlighted only at that index. */
  lemma {:induction false} LayoutKeepsHighlightAt(ticks: seq<TickEl>, lead: real, extent: real)
    requires HighlightOnlyAt(ticks, HighlightIndex(extent))
    ensures HighlightOnlyAt(LayoutAll(ticks, lead, extent), HighlightIndex(extent))
  {
    var r := LayoutAll(ticks, lead, extent);
    forall j | 0 <= j < |r| && r[j].highlighted
      ensures j == HighlightIndex(extent)
    {
      HighlightIndexExact(lead + extent / 2.0, extent, j);
    }
  }

  /** Whatever stale classes it started from, after a layout pass the only shown
      tick that can be highlighted is the one at index `1 + ceil(extent / 400)`. */
  lemma {:induction false} ShownHighlightUnique(ticks: seq<TickEl>, lead: real, extent: real, j: int)
    requires 0 <= j < |ticks|
    requires !LayoutAll(ticks, lead, extent)[j].hidden && LayoutAll(ticks, lead, extent)[j].highlighted
    ensures j == HighlightIndex(extent)
  {
    HighlightIndexExact(lead + extent / 2.0, extent, j);
  }
}
