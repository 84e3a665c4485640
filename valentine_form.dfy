/** The "No" button of src/app/be-mine/ValentineForm.tsx, which runs from the
    cursor on desktop and jumps away on each tap until the third, when the form
    surrenders. Positions are viewport pixels. `Math.random()` is a stream of
    values passed in as a sequence, and the cursor distance `Math.sqrt(...)` is
    an input tied to the squared offset. */
module Valentine {
  import opened Common

  const FleeDistance: real := 150.0
  const MaxNoTaps: nat := 3
  const Padding: real := 16.0
  const SafeTries: nat := 20
  /** Two `Math.random()` values per try, and two more for the fallback. */
  const RandomsNeeded: nat := 2 * SafeTries + 2

  /** A `getBoundingClientRect()` result. */
  datatype Rect = Rect(left: real, top: real, width: real, height: real)

  /** `rectsOverlap`: strict on every side, so rectangles that only touch do
      not overlap. */
  predicate RectsOverlap(a: Rect, b: Rect) {
    a.left < b.left + b.width &&
    a.left + a.width > b.left &&
    a.top < b.top + b.height &&
    a.top + a.height > b.top
  }

  /** The point lies strictly inside the rectangle. */
  predicate Interior(r: Rect, x: real, y: real) {
    r.left < x < r.left + r.width && r.top < y < r.top + r.height
  }

  /** For any rectangles the test is symmetric, and rectangles that only
      share an edge, on whichever side, do not overlap. */
  lemma OverlapSymmetricEdgesApart(a: Rect, b: Rect)
    ensures RectsOverlap(a, b) == RectsOverlap(b, a)
    ensures a.left + a.width == b.left ==> !RectsOverlap(a, b)
    ensures b.left + b.width == a.left ==> !RectsOverlap(a, b)
    ensures a.top + a.height == b.top ==> !RectsOverlap(a, b)
    ensures b.top + b.height == a.top ==> !RectsOverlap(a, b)
  {
  }

  /** For rectangles of positive size, the test means exactly that some
      point lies strictly inside both. */
  lemma {:induction false} OverlapIffSharedInterior(a: Rect, b: Rect)
    requires a.width > 0.0 && a.height > 0.0 && b.width > 0.0 && b.height > 0.0
    ensures RectsOverlap(a, b) <==> exists x: real, y: real :: Interior(a, x, y) && Interior(b, x, y)
  {
    if RectsOverlap(a, b) {
      var x0, x1 := Max(a.left, b.left), Min(a.left + a.width, b.left + b.width);
      var y0, y1 := Max(a.top, b.top), Min(a.top + a.height, b.top + b.height);
      assert x0 < x1 && y0 < y1;
      var x, y := (x0 + x1) / 2.0, (y0 + y1) / 2.0;
      assert x0 < x < x1 && y0 < y < y1;
      assert Interior(a, x, y) && Interior(b, x, y);
    }
  }

  /** `toTranslate`: the offset that moves the button from its recorded
      origin to the target; no offset before an origin is recorded. */
  function ToTranslate(origin: Option<(real, real)>, target: (real, real)): (r: (real, real))
    ensures origin.Some? ==> (origin.value.0 + r.0, origin.value.1 + r.1) == target
    ensures origin.None? ==> r == (0.0, 0.0)
  {
    match origin
    case None => (0.0, 0.0)
    case Some(o) => (target.0 - o.0, target.1 - o.1)
  }

  /** The range the button's top-left corner may take: 16 px in from every
      edge of the viewport. */
  datatype Bounds = Bounds(minX: real, maxX: real, minY: real, maxY: real)

  function PaddedBounds(innerWidth: real, innerHeight: real, w: real, h: real): Bounds {
    Bounds(Padding, innerWidth - w - Padding, Padding, innerHeight - h - Padding)
  }

  predicate InBounds(b: Bounds, p: (real, real)) {
    b.minX <= p.0 <= b.maxX && b.minY <= p.1 <= b.maxY
  }

  /** The candidate of try `i` (the fallback when `i` is 20), drawn from the
      random values `rs[2i]` and `rs[2i + 1]`. */
  function CandidateAt(b: Bounds, rs: seq<real>, i: nat): (real, real)
    requires |rs| == RandomsNeeded && i <= SafeTries
  {
    (Spread(b.minX, b.maxX, rs[2 * i]), Spread(b.minY, b.maxY, rs[2 * i + 1]))
  }

  /** `min + Math.random() * (max - min)`: with a random value in [0, 1) and
      `min <= max`, the value lies in [min, max]. */
  function Spread(lo: real, hi: real, u: real): (r: real)
    ensures 0.0 <= u < 1.0 && lo <= hi ==> lo <= r <= hi
  {
    lo + Scale(u, hi - lo)
  }

  /** `u * d`, which lies between 0 and `d` for `u` in [0, 1). */
  function Scale(u: real, d: real): (r: real)
    ensures 0.0 <= u < 1.0 && d >= 0.0 ==> 0.0 <= r <= d
  {
    if 0.0 <= u < 1.0 && d >= 0.0 then
      MulNonneg(u, d);
      MulNonneg(1.0 - u, d);
      assert d - u * d == (1.0 - u) * d;
      u * d
    else u * d
  }

  /** A spot is blocked when the button placed there overlaps the content box. */
  predicate Blocked(content: Option<Rect>, p: (real, real), w: real, h: real) {
    content.Some? && RectsOverlap(Rect(p.0, p.1, w, h), content.value)
  }

  /** `getSafeTarget` from try `i` on: the first unblocked candidate, or the
      fallback after 20 blocked tries. */
  function SafeTarget(b: Bounds, w: real, h: real, content: Option<Rect>, rs: seq<real>, i: nat): (real, real)
    requires |rs| == RandomsNeeded && i <= SafeTries
    decreases SafeTries - i
  {
    if i == SafeTries then CandidateAt(b, rs, SafeTries)
    else if !Blocked(content, CandidateAt(b, rs, i), w, h) then CandidateAt(b, rs, i)
    else SafeTarget(b, w, h, content, rs, i + 1)
  }

  /** The safe target is the candidate of the first try that is not blocked,
      every earlier try being blocked; or the fallback candidate when all
      twenty tries were blocked. */
  lemma {:induction false} SafeTargetFirstFit(b: Bounds, w: real, h: real, content: Option<Rect>, rs: seq<real>, i: nat)
    requires |rs| == RandomsNeeded && i <= SafeTries
    ensures exists k :: (i <= k <= SafeTries && SafeTarget(b, w, h, content, rs, i) == CandidateAt(b, rs, k) &&
      (k < SafeTries ==> !Blocked(content, CandidateAt(b, rs, k), w, h)) &&
      forall j :: i <= j < k ==> Blocked(content, CandidateAt(b, rs, j), w, h))
    decreases SafeTries - i
  {
    if i == SafeTries {
      assert SafeTarget(b, w, h, content, rs, i) == CandidateAt(b, rs, i);
    } else if !Blocked(content, CandidateAt(b, rs, i), w, h) {
      assert SafeTarget(b, w, h, content, rs, i) == CandidateAt(b, rs, i);
    } else {
      SafeTargetFirstFit(b, w, h, content, rs, i + 1);
      var k :| i + 1 <= k <= SafeTries && SafeTarget(b, w, h, content, rs, i + 1) == CandidateAt(b, rs, k) &&
        (k < SafeTries ==> !Blocked(content, CandidateAt(b, rs, k), w, h)) &&
        forall j :: i + 1 <= j < k ==> Blocked(content, CandidateAt(b, rs, j), w, h);
      assert forall j :: i <= j < k ==> Blocked(content, CandidateAt(b, rs, j), w, h);
    }
  }

  /** With random values in [0, 1) and a viewport large enough for the
      button, every candidate lies within the padded bounds. */
  lemma {:induction false} CandidateInBounds(b: Bounds, rs: seq<real>, i: nat)
    requires |rs| == RandomsNeeded && i <= SafeTries
    requires forall k :: 0 <= k < |rs| ==> 0.0 <= rs[k] < 1.0
    requires b.minX <= b.maxX && b.minY <= b.maxY
    ensures InBounds(b, CandidateAt(b, rs, i))
  {
    assert 0.0 <= rs[2 * i] < 1.0 && 0.0 <= rs[2 * i + 1] < 1.0;
  }

  /** ... and so does the safe target. */
  lemma {:induction false} SafeTargetInBounds(b: Bounds, w: real, h: real, content: Option<Rect>, rs: seq<real>)
    requires |rs| == RandomsNeeded
    requires forall k :: 0 <= k < |rs| ==> 0.0 <= rs[k] < 1.0
    requires b.minX <= b.maxX && b.minY <= b.maxY
    ensures InBounds(b, SafeTarget(b, w, h, content, rs, 0))
  {
    SafeTargetFirstFit(b, w, h, content, rs, 0);
    var k :| 0 <= k <= SafeTries && SafeTarget(b, w, h, content, rs, 0) == CandidateAt(b, rs, k);
    CandidateInBounds(b, rs, k);
  }

  /** `getSafeTarget`, with its retry loop. */
  method GetSafeTarget(innerWidth: real, innerHeight: real, w: real, h: real,
                       content: Option<Rect>, rs: seq<real>) returns (x: real, y: real)
    requires |rs| == RandomsNeeded
    ensures (x, y) == SafeTarget(PaddedBounds(innerWidth, innerHeight, w, h), w, h, content, rs, 0)
  {
    var minX, maxX := Padding, innerWidth - w - Padding;
    var minY, maxY := Padding, innerHeight - h - Padding;
    ghost var b := Bounds(minX, maxX, minY, maxY);
    var i := 0;
    while i < SafeTries
      invariant 0 <= i <= SafeTries
      invariant SafeTarget(b, w, h, content, rs, 0) == SafeTarget(b, w, h, content, rs, i)
    {
      x := Spread(minX, maxX, rs[2 * i]);
      y := Spread(minY, maxY, rs[2 * i + 1]);
      if content.Some? && RectsOverlap(Rect(x, y, w, h), content.value) {
        i := i + 1;
        continue;
      }
      return;
    }
    x := Spread(minX, maxX, rs[2 * SafeTries]);
    y := Spread(minY, maxY, rs[2 * SafeTries + 1]);
  }

  /** The cursor's offset from the centre of the button. */
  function CursorOffset(button: Rect, mouseX: real, mouseY: real): (real, real) {
    (mouseX - (button.left + button.width / 2.0), mouseY - (button.top + button.height / 2.0))
  }

  /** `dist` is the cursor's distance from the button's centre. */
  predicate IsDistance(button: Rect, mouseX: real, mouseY: real, dist: real) {
    var (dx, dy) := CursorOffset(button, mouseX, mouseY);
    dist >= 0.0 && dist * dist == dx * dx + dy * dy
  }

  /** `(cos(atan2(dy, dx)), sin(atan2(dy, dx)))`: the unit vector from the
      centre toward the cursor, `(1, 0)` when the cursor is on the centre. */
  function Direction(dx: real, dy: real, dist: real): (real, real) {
    if dist == 0.0 then (1.0, 0.0) else (dx / dist, dy / dist)
  }

  /** The spot 200 px from the centre, directly away from the cursor. */
  function RawFleeSpot(button: Rect, mouseX: real, mouseY: real, dist: real): (real, real) {
    var (dx, dy) := CursorOffset(button, mouseX, mouseY);
    var (ux, uy) := Direction(dx, dy, dist);
    (button.left + button.width / 2.0 - ux * (FleeDistance + 50.0) - button.width / 2.0,
     button.top + button.height / 2.0 - uy * (FleeDistance + 50.0) - button.height / 2.0)
  }

  /** The raw spot clamped into the padded viewport. */
  function ClampedFleeSpot(button: Rect, mouseX: real, mouseY: real, dist: real,
                           innerWidth: real, innerHeight: real): (real, real) {
    var (rawX, rawY) := RawFleeSpot(button, mouseX, mouseY, dist);
    var b := PaddedBounds(innerWidth, innerHeight, button.width, button.height);
    (Max(b.minX, Min(rawX, b.maxX)), Max(b.minY, Min(rawY, b.maxY)))
  }

  /** Where the mouse-move handler sends the button's corner: nowhere unless
      the cursor is within 150 px of the centre; then the clamped spot, or a
      safe random spot when the clamped one lands on the content. */
  function FleeTarget(button: Rect, mouseX: real, mouseY: real, dist: real,
                      innerWidth: real, innerHeight: real,
                      content: Option<Rect>, rs: seq<real>): Option<(real, real)>
    requires |rs| == RandomsNeeded
  {
    if dist >= FleeDistance then None
    else
      var spot := ClampedFleeSpot(button, mouseX, mouseY, dist, innerWidth, innerHeight);
      if Blocked(content, spot, button.width, button.height) then
        Some(SafeTarget(PaddedBounds(innerWidth, innerHeight, button.width, button.height),
                        button.width, button.height, content, rs, 0))
      else Some(spot)
  }

  /** The raw spot's centre lies on the line from the cursor through the
      button's centre, 200 px beyond that centre: the button runs straight
      away from the cursor. */
  lemma {:induction false} RawFleeAway(button: Rect, mouseX: real, mouseY: real, dist: real)
    requires IsDistance(button, mouseX, mouseY, dist) && dist > 0.0
    ensures var (dx, dy) := CursorOffset(button, mouseX, mouseY);
      var spot := RawFleeSpot(button, mouseX, mouseY, dist);
      spot.0 + button.width / 2.0 - mouseX == -(dx / dist) * (dist + FleeDistance + 50.0) &&
      spot.1 + button.height / 2.0 - mouseY == -(dy / dist) * (dist + FleeDistance + 50.0)
  {
    var (dx, dy) := CursorOffset(button, mouseX, mouseY);
    assert (dx / dist) * dist == dx;
    assert (dy / dist) * dist == dy;
  }

  /** The handler moves the button exactly when the cursor is closer than
      150 px; the new corner is the clamped spot unless that overlaps the
      content, and then the safe target. With a viewport large enough for the
      button the clamped spot lies in the padded bounds, and with random
      values in [0, 1) so does the result. */
  lemma {:induction false} FleeTargetSpec(button: Rect, mouseX: real, mouseY: real, dist: real,
                                          innerWidth: real, innerHeight: real,
                                          content: Option<Rect>, rs: seq<real>)
    requires |rs| == RandomsNeeded
    ensures var r := FleeTarget(button, mouseX, mouseY, dist, innerWidth, innerHeight, content, rs);
      var spot := ClampedFleeSpot(button, mouseX, mouseY, dist, innerWidth, innerHeight);
      var b := PaddedBounds(innerWidth, innerHeight, button.width, button.height);
      (r.Some? <==> dist < FleeDistance) &&
      (r.Some? && !Blocked(content, spot, button.width, button.height) ==> r.value == spot) &&
      (r.Some? && Blocked(content, spot, button.width, button.height) ==>
         r.value == SafeTarget(b, button.width, button.height, content, rs, 0)) &&
      (b.minX <= b.maxX && b.minY <= b.maxY ==> InBounds(b, spot)) &&
      (r.Some? && b.minX <= b.maxX && b.minY <= b.maxY && (forall k :: 0 <= k < |rs| ==> 0.0 <= rs[k] < 1.0) ==>
         InBounds(b, r.value))
  {
    var b := PaddedBounds(innerWidth, innerHeight, button.width, button.height);
    if b.minX <= b.maxX && b.minY <= b.maxY && (forall k :: 0 <= k < |rs| ==> 0.0 <= rs[k] < 1.0) {
      SafeTargetInBounds(b, button.width, button.height, content, rs);
    }
  }

  /** The form's state: whether "Yes" was pressed, the No button's taps, its
      recorded origin and its current translate offset. */
  class ValentineForm {
    /** `(pointer: coarse)`: touch devices get no mouse-move flight. */
    const isTouch: bool
    var accepted: bool
    var surrendered: bool
    var noTaps: nat
    var origin: Option<(real, real)>
    var noTransform: (real, real)

    /** The form surrenders exactly when three taps have been counted, and
        no tap is counted after that (the button loses its click handler). */
    ghost predicate Valid()
      reads this
    {
      noTaps <= MaxNoTaps && (surrendered <==> noTaps == MaxNoTaps)
    }

    constructor (isTouch: bool)
      ensures this.isTouch == isTouch && Valid()
      ensures !accepted && !surrendered && noTaps == 0 && origin.None? && noTransform == (0.0, 0.0)
    {
      this.isTouch := isTouch;
      accepted := false;
      surrendered := false;
      noTaps := 0;
      origin := None;
      noTransform := (0.0, 0.0);
    }

    /** The mount effect: record the button's untransformed corner once. */
    method Mount(button: Option<Rect>)
      modifies this
      ensures origin == if old(origin).None? && button.Some? then Some((button.value.left, button.value.top)) else old(origin)
      ensures accepted == old(accepted) && surrendered == old(surrendered) && noTaps == old(noTaps)
      ensures noTransform == old(noTransform)
    {
      if button.Some? && origin.None? {
        origin := Some((button.value.left, button.value.top));
      }
    }

    /** The "Yes" button. */
    method Accept()
      modifies this
      ensures accepted
      ensures surrendered == old(surrendered) && noTaps == old(noTaps) && origin == old(origin)
      ensures noTransform == old(noTransform)
    {
      accepted := true;
    }

    /** A tap on "No": ignored once surrendered; the third tap surrenders
        without moving the button; earlier taps send it to a safe target. */
    method Click(button: Option<Rect>, innerWidth: real, innerHeight: real,
                 content: Option<Rect>, rs: seq<real>)
      requires Valid() && |rs| == RandomsNeeded
      modifies this
      ensures Valid()
      ensures old(surrendered) ==> noTaps == old(noTaps) && surrendered && noTransform == old(noTransform)
      ensures !old(surrendered) ==> noTaps == old(noTaps) + 1
      ensures surrendered <==> noTaps == MaxNoTaps
      ensures surrendered ==> noTransform == old(noTransform)
      ensures !surrendered && button.Some? ==>
        noTransform == ToTranslate(origin, SafeTarget(PaddedBounds(innerWidth, innerHeight, button.value.width, button.value.height),
                                                      button.value.width, button.value.height, content, rs, 0))
      ensures !surrendered && button.None? ==> noTransform == old(noTransform)
      ensures accepted == old(accepted) && origin == old(origin)
    {
      if surrendered {
        return;
      }
      noTaps := noTaps + 1;
      if noTaps >= MaxNoTaps {
        surrendered := true;
        return;
      }
      if button.None? {
        return;
      }
      var x, y := GetSafeTarget(innerWidth, innerHeight, button.value.width, button.value.height, content, rs);
      noTransform := ToTranslate(origin, (x, y));
    }

    /** The document's mouse-move listener, registered on non-touch devices
        until "Yes" is pressed. */
    method MouseMove(button: Option<Rect>, mouseX: real, mouseY: real, dist: real,
                     innerWidth: real, innerHeight: real, content: Option<Rect>, rs: seq<real>)
      requires button.Some? ==> IsDistance(button.value, mouseX, mouseY, dist)
      requires |rs| == RandomsNeeded
      modifies this
      ensures accepted == old(accepted) && surrendered == old(surrendered)
      ensures noTaps == old(noTaps) && origin == old(origin)
      ensures var fires := !accepted && !isTouch && button.Some? && origin.Some? && dist < FleeDistance;
        (fires ==> noTransform == ToTranslate(origin, FleeTarget(button.value, mouseX, mouseY, dist, innerWidth, innerHeight, content, rs).value)) &&
        (!fires ==> noTransform == old(noTransform))
    {
      if accepted || isTouch || button.None? || origin.None? {
        return;
      }
      var rect := button.value;
      var cx := rect.left + rect.width / 2.0;
      var cy := rect.top + rect.height / 2.0;
      var dx := mouseX - cx;
      var dy := mouseY - cy;
      if dist < FleeDistance {
        var ux, uy := 1.0, 0.0;
        if dist != 0.0 {
          ux, uy := dx / dist, dy / dist;
        }
        var rawX := cx - ux * (FleeDistance + 50.0) - rect.width / 2.0;
        var rawY := cy - uy * (FleeDistance + 50.0) - rect.height / 2.0;
        var minX, maxX := Padding, innerWidth - rect.width - Padding;
        var minY, maxY := Padding, innerHeight - rect.height - Padding;
        var targetX := Max(minX, Min(rawX, maxX));
        var targetY := Max(minY, Min(rawY, maxY));
        if content.Some? && RectsOverlap(Rect(targetX, targetY, rect.width, rect.height), content.value) {
          targetX, targetY := GetSafeTarget(innerWidth, innerHeight, rect.width, rect.height, content, rs);
        }
        noTransform := (targetX - origin.value.0, targetY - origin.value.1);
      }
    }
  }

  /** From a fresh form, the first two taps move the button and the third
      surrenders. */
  method TapThrice(button: Rect, innerWidth: real, innerHeight: real, content: Option<Rect>, rs: seq<real>)
    returns (afterFirst: bool, afterSecond: bool, afterThird: bool, taps: nat)
    requires |rs| == RandomsNeeded
    ensures !afterFirst && !afterSecond && afterThird && taps == MaxNoTaps
  {
    var form := new ValentineForm(false);
    form.Click(Some(button), innerWidth, innerHeight, content, rs);
    afterFirst := form.surrendered;
    form.Click(Some(button), innerWidth, innerHeight, content, rs);
    afterSecond := form.surrendered;
    form.Click(Some(button), innerWidth, innerHeight, content, rs);
    afterThird := form.surrendered;
    taps := form.noTaps;
  }
}
