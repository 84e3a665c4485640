/** Small helpers shared by the modules of this project: an Option type for the
    site's `null`/`undefined` values, and the JavaScript `Math` functions its
    TypeScript uses, stated on mathematical reals. */
module Common {

  datatype Option<T> = None | Some(value: T) {
    function GetOr(default: T): T {
      match this
      case Some(v) => v
      case None => default
    }
  }

  /** Math.max(a, b) */
  function Max(a: real, b: real): (r: real)
    ensures r >= a && r >= b && (r == a || r == b)
  {
    if a >= b then a else b
  }

  /** Math.min(a, b) */
  function Min(a: real, b: real): (r: real)
    ensures r <= a && r <= b && (r == a || r == b)
  {
    if a <= b then a else b
  }

  function MaxInt(a: int, b: int): (r: int)
    ensures r >= a && r >= b && (r == a || r == b)
  {
    if a >= b then a else b
  }

  function MinInt(a: int, b: int): (r: int)
    ensures r <= a && r <= b && (r == a || r == b)
  {
    if a <= b then a else b
  }

  /** The idiom `Math.max(0, Math.min(1, x))` used throughout the site's TypeScript. */
  function Clamp01(x: real): (r: real)
    ensures 0.0 <= r <= 1.0
    ensures 0.0 <= x <= 1.0 ==> r == x
    ensures x <= 0.0 ==> r == 0.0
    ensures x >= 1.0 ==> r == 1.0
  {
    Max(0.0, Min(1.0, x))
  }

  /** Math.floor */
  function Floor(x: real): (r: int)
    ensures r as real <= x < r as real + 1.0
  {
    x.Floor
  }

  /** Shifting by a whole number shifts the floor by that number. */
  lemma {:induction false} FloorShift(n: int, y: real)
    ensures Floor(n as real + y) == n + Floor(y)
  {
    var f := Floor(y);
    assert f as real <= y < f as real + 1.0;
    assert (n + f) as real <= n as real + y < (n + f) as real + 1.0;
  }

  /** Math.ceil */
  function Ceil(x: real): (r: int)
    ensures r as real - 1.0 < x <= r as real
  {
    -((-x).Floor)
  }

  /** Math.round: rounds half-way cases toward positive infinity. */
  function Round(x: real): (r: int)
    ensures x - 0.5 < r as real <= x + 0.5
  {
    (x + 0.5).Floor
  }

  /** `x - Math.floor(x)`, the fractional-part step of the site's sine hashes. */
  function Frac(x: real): (r: real)
    ensures 0.0 <= r < 1.0
    ensures (x - r).Floor as real == x - r
  {
    x - Floor(x) as real
  }

  /** |x| */
  function Abs(x: real): (r: real)
    ensures r >= 0.0 && (r == x || r == -x)
  {
    if x >= 0.0 then x else -x
  }

  /** The sign of a quotient by a positive divisor, and where it sits against 0 and 1. */
  lemma QuotientBounds(x: real, d: real)
    requires d > 0.0
    ensures x <= 0.0 ==> x / d <= 0.0
    ensures x >= d ==> x / d >= 1.0
    ensures 0.0 < x < d ==> 0.0 < x / d < 1.0
  {
  }

  /** Division by a positive number is monotone. */
  lemma DivMonotone(x: real, y: real, d: real)
    requires x <= y && d > 0.0
    ensures x / d <= y / d
  {
    assert y / d - x / d == (y - x) / d;
  }

  /** The product of two non-negative reals is non-negative. */
  lemma MulNonneg(a: real, b: real)
    requires a >= 0.0 && b >= 0.0
    ensures a * b >= 0.0
  {
  }

  /** Sequence concatenation is associative; stated once so that callers which
      grow a sequence piece by piece get the regrouping as one fact. */
  lemma AppendAssoc<T>(a: seq<T>, b: seq<T>, c: seq<T>)
    ensures (a + b) + c == a + (b + c)
  {
  }

  /** The `HighlightData` a section writes for the ambient background each
      render: the text to draw into the character grid and how strongly. */
  datatype Highlight = Highlight(text: string, intensity: real)
}
