/** The ASCII ambient background of src/components/HeroSection/AsciiAmbient.tsx:
    a grid of characters with a parallel brightness buffer, updated in place
    once per animation frame. A frame decays the buffer, drains the previous
    highlight text in a pseudo-random order, advances the reveal of the current
    text, and max-merges the dappled ambient light and the highlight text into
    the buffer; a spotlight raises the cells near the pointer.

    Canvas drawing, text rasterisation and the sine noise fields are outside
    the model: the rasterised text mask, the per-cell noise, the sine hashes,
    the leaf depths, `Math.sqrt` and `Math.random` results are inputs. */
module AsciiAmbient {
  import opened Common

  const Charset: string := "{}[]·:.-+*<>/|"
  const FontSize: real := 16.0
  /** FONT_SIZE * 1.7 */
  const LineHeight: real := 27.2
  /** FONT_SIZE * 0.62 */
  const CharWidth: real := 9.92
  const MouseRadius: real := 300.0
  const FadeStep: real := 0.0015
  const BrightAlphaLight: real := 0.45
  const BrightAlphaDark: real := 0.3
  const IdleThreshold: real := 1000.0
  const DappleAlphaLight: real := 0.2
  const DappleAlphaDark: real := 0.12
  const DappleFadeSpeed: real := 0.04
  const DappleReturnDelay: real := 800.0
  const HlRevealSpeed: real := 0.025
  const FadeOutSweepSpeed: real := 0.035
  /** A mask value above this marks a cell of the text. */
  const MaskOn: int := 20
  /** The largest value any write to the buffer makes. */
  const MaxBrightness: real := 0.85
  /** Where pointer leave parks the pointer. */
  const OffScreen: real := -9999.0

  /** One entry of a `Uint8Array`. */
  newtype Byte = x: int | 0 <= x < 256

  /** `randomChar`: the character `Math.random()` = `u` picks. */
  function RandomChar(u: real): (c: char)
    requires 0.0 <= u < 1.0
    ensures c in Charset
  {
    Charset[Floor(u * |Charset| as real)]
  }

  /** `initGrid`'s grid size for a viewport. */
  function GridSize(width: real, height: real): (r: (nat, nat))
    requires width >= 0.0 && height >= 0.0
    ensures r.0 as real * CharWidth <= width < (r.0 + 1) as real * CharWidth
    ensures r.1 as real * LineHeight <= height < (r.1 + 1) as real * LineHeight
  {
    var c := Floor(width / CharWidth);
    var r := Floor(height / LineHeight);
    assert c as real <= width / CharWidth < c as real + 1.0;
    assert r as real <= height / LineHeight < r as real + 1.0;
    (c, r)
  }

  /** The product of two numbers in [0, 1] is in [0, 1] and no larger than
      either factor. */
  function Mul01(x: real, y: real): (r: real)
    ensures 0.0 <= x <= 1.0 && 0.0 <= y <= 1.0 ==> 0.0 <= r <= x && r <= y
  {
    if 0.0 <= x <= 1.0 && 0.0 <= y <= 1.0 then
      MulNonneg(x, y);
      MulNonneg(1.0 - x, y);
      MulNonneg(x, 1.0 - y);
      x * y
    else x * y
  }

  /** A highlight mask: the alpha channel of the rasterised text and each
      cell's reveal threshold. */
  datatype Mask = Mask(alpha: seq<Byte>, threshold: seq<real>)

  predicate MaskValid(m: Mask) {
    |m.alpha| == |m.threshold| && forall i :: 0 <= i < |m.threshold| ==> 0.0 <= m.threshold[i] < 1.0
  }

  /** `mask[i]`, reading 0 past the end (JavaScript's `undefined`, which
      compares false and is replaced by `?? 0`). */
  function MaskAt(m: Option<Mask>, i: int): (r: int)
    ensures 0 <= r < 256
  {
    if m.Some? && 0 <= i < |m.value.alpha| then m.value.alpha[i] as int else 0
  }

  /** `thresholds ? thresholds[i] : 0`. */
  function ThresholdAt(m: Option<Mask>, i: int): (r: real)
    ensures m.Some? && MaskValid(m.value) ==> 0.0 <= r < 1.0
  {
    if m.Some? && 0 <= i < |m.value.threshold| then m.value.threshold[i] else 0.0
  }

  /** The cell's share of a sweep: `clamp((progress * 1.3 - threshold) * 4, 0, 1)`,
      used both to reveal the new text and to clear the old. Cells with a
      lower threshold go first, and every cell is fully swept by the time the
      progress reaches 1. */
  function SweepAmount(progress: real, threshold: real): (r: real)
    ensures 0.0 <= r <= 1.0
    ensures progress >= 1.0 && threshold < 1.0 ==> r == 1.0
    ensures progress <= 0.0 && threshold >= 0.0 ==> r == 0.0
  {
    Clamp01((progress * 1.3 - threshold) * 4.0)
  }

  /** The decay of one cell: down by 0.0015, floored at 0. */
  function Decayed(b: real): (r: real)
    ensures b >= 0.0 ==> 0.0 <= r <= b
    ensures b > 0.0 ==> r < b
  {
    Max(0.0, b - FadeStep)
  }

  /** The drain of one cell of the old text by its clear amount. */
  function Drained(b: real, clearAmount: real): (r: real)
    requires 0.0 <= clearAmount <= 1.0
    ensures b >= 0.0 ==> 0.0 <= r <= b
    ensures clearAmount == 1.0 ==> r == 0.0
  {
    if clearAmount > 0.0 then Max(0.0, Mul01(b, 1.0 - clearAmount)) else b
  }

  /** The spotlight's value for a cell at distance `dist` from the pointer:
      `alpha * i * i` with `i = 1 - dist / 300`, at most `alpha` within the
      radius. */
  function SpotValue(alpha: real, dist: real): (r: real)
    ensures 0.0 <= alpha <= 1.0 && 0.0 <= dist <= MouseRadius ==> 0.0 <= r <= alpha
  {
    var i := 1.0 - dist / MouseRadius;
    Mul01(Mul01(alpha, i), i)
  }

  /** The dapple intensity eases toward 0 while the pointer hovers and back
      toward 1 once it has been away for more than 800 ms; it stays in [0, 1]. */
  function DappleStep(d: real, effectiveHover: bool, sinceHoverEnd: real): (r: real)
    ensures 0.0 <= d <= 1.0 ==> 0.0 <= r <= 1.0
    ensures effectiveHover ==> r == d * (1.0 - DappleFadeSpeed)
    ensures !effectiveHover && sinceHoverEnd <= DappleReturnDelay ==> r == d
    ensures !effectiveHover && sinceHoverEnd > DappleReturnDelay ==> 1.0 - r == (1.0 - d) * (1.0 - DappleFadeSpeed)
  {
    if effectiveHover then d + (0.0 - d) * DappleFadeSpeed
    else if sinceHoverEnd > DappleReturnDelay then d + (1.0 - d) * DappleFadeSpeed
    else d
  }

  /** The reveal progress at the end of a tick: held at 0 while old text is
      still draining; otherwise up by 0.025 for non-empty text seen up close,
      down by 0.05 when the camera has moved away. */
  function RevealStep(p: real, fadingPresent: bool, textPresent: bool, intensity: real): (r: real)
    ensures 0.0 <= p <= 1.0 ==> 0.0 <= r <= 1.0
    ensures fadingPresent ==> r == 0.0
    ensures !fadingPresent && textPresent && intensity > 0.3 ==> r == Min(1.0, p + HlRevealSpeed)
    ensures !fadingPresent && !(textPresent && intensity > 0.3) && p > 0.0 && intensity < 0.1 ==>
      r == Max(0.0, p - 2.0 * HlRevealSpeed)
    ensures !fadingPresent && !(textPresent && intensity > 0.3) && !(p > 0.0 && intensity < 0.1) ==> r == p
  {
    if fadingPresent then 0.0
    else if textPresent && intensity > 0.3 then Min(1.0, p + HlRevealSpeed)
    else if p > 0.0 && intensity < 0.1 then Max(0.0, p - HlRevealSpeed * 2.0)
    else p
  }

  /** The fade-out progress after `k` drain ticks from a fresh snapshot. */
  function FadeProgressAfter(k: nat): real {
    if k == 0 then 0.0 else Min(1.0, FadeProgressAfter(k - 1) + FadeOutSweepSpeed)
  }

  /** The fade-out progress is `min(1, 0.035 k)` after `k` ticks, so it first
      reaches 1, and the fading mask is dropped, on the 29th tick. */
  lemma {:induction false} FadeProgressClosedForm(k: nat)
    ensures FadeProgressAfter(k) == Min(1.0, FadeOutSweepSpeed * k as real)
  {
    if k > 0 {
      FadeProgressClosedForm(k - 1);
    }
  }

  lemma FadeGoneWithin29Ticks()
    ensures FadeProgressAfter(29) == 1.0
    ensures forall k: nat :: k < 29 ==> FadeProgressAfter(k) < 1.0
  {
    FadeProgressClosedForm(29);
    forall k: nat | k < 29
      ensures FadeProgressAfter(k) < 1.0
    {
      FadeProgressClosedForm(k);
    }
  }

  /** The value the merge pass writes over brightness `b` for one cell: the
      highlight's alpha inside the revealed text, the dappled light, dimmed
      near the text, elsewhere. */
  /** The highlight's alpha for a cell of the text: the mask's coverage
      times the intensity, the cell's reveal and the theme's base alpha. */
  function HighlightAlpha(maskVal: int, hlIntensity: real, cellReveal: real, hlBase: real): (r: real)
    ensures (0 <= maskVal <= 255 && 0.0 <= hlIntensity <= 1.0 && 0.0 <= cellReveal <= 1.0 &&
             0.0 <= hlBase <= 1.0) ==> 0.0 <= r <= hlBase
  {
    Mul01(Mul01(Mul01(maskVal as real / 255.0, hlIntensity), cellReveal), hlBase)
  }

  /** The dappled light's alpha for a cell: the leaf edge times the theme's
      alpha, the dapple intensity and, next to the text, a dimming by the
      text's own coverage. */
  function DappleAlpha(edge: real, dappleAlpha: real, dappleIntensity: real,
                       maskVal: int, hlIntensity: real, cellReveal: real): (r: real)
    ensures 0.0 <= edge <= 1.0 && 0.0 <= dappleAlpha <= 1.0 && 0.0 <= dappleIntensity <= 1.0 &&
            0 <= maskVal <= 255 && 0.0 <= hlIntensity <= 1.0 && 0.0 <= cellReveal <= 1.0 ==>
            0.0 <= r <= dappleAlpha
  {
    var suppress := if maskVal > 0 && cellReveal > 0.0
      then 1.0 - Mul01(Mul01(maskVal as real / 255.0, hlIntensity), cellReveal)
      else 1.0;
    Mul01(Mul01(Mul01(edge, dappleAlpha), dappleIntensity), suppress)
  }

  /** The value the merge pass leaves in a cell holding `b`: the highlight's
      alpha inside the revealed text, the dappled light above 0.01 elsewhere,
      whichever of these and `b` is larger. */
  function MergeCell(b: real, edge: real, dappleAlpha: real, dappleIntensity: real,
                     maskVal: int, threshold: real, revealProgress: real, hlIntensity: real, hlBase: real): (r: real)
    ensures r >= b
    ensures (0.0 <= b <= MaxBrightness && 0.0 <= edge <= 1.0 && 0.0 <= dappleAlpha <= MaxBrightness &&
             0.0 <= dappleIntensity <= 1.0 && 0 <= maskVal <= 255 && 0.0 <= hlIntensity <= 1.0 &&
             0.0 <= hlBase <= MaxBrightness) ==> r <= MaxBrightness
  {
    var cellReveal := SweepAmount(revealProgress, threshold);
    if maskVal > MaskOn && cellReveal > 0.01 then
      Max(b, HighlightAlpha(maskVal, hlIntensity, cellReveal, hlBase))
    else
      var total := DappleAlpha(edge, dappleAlpha, dappleIntensity, maskVal, hlIntensity, cellReveal);
      if total > 0.01 then Max(b, total) else b
  }

  /** `updateHighlightMask`'s layout of the highlight text on the mask canvas: the font
      size, the spacing of letter centres and the first letter's centre. */
  function TextLayout(cols: int, rows: int, textLength: nat): (layout: (real, real, real))
    requires textLength >= 1
  {
    var fontSize := rows as real * 0.75;
    var kerning := fontSize * 0.85;
    var totalWidth := (textLength - 1) as real * kerning;
    (fontSize, kerning, Max(fontSize * 0.35, (cols as real - totalWidth) / 2.0))
  }

  /** The first letter never starts left of 0.35 font sizes; text that fits
      is centred on the grid, and text that overflows is pinned to the left. */
  lemma TextLayoutPlacement(cols: int, rows: int, textLength: nat)
    requires textLength >= 1
    ensures var (fontSize, kerning, startX) := TextLayout(cols, rows, textLength);
      var totalWidth := (textLength - 1) as real * kerning;
      startX >= 0.35 * fontSize &&
      ((cols as real - totalWidth) / 2.0 >= 0.35 * fontSize ==> startX + totalWidth / 2.0 == cols as real / 2.0) &&
      ((cols as real - totalWidth) / 2.0 < 0.35 * fontSize ==> startX == 0.35 * fontSize)
  {
  }

  /** The number of cells of a grid. */
  function CellCount(cols: nat, rows: nat): nat {
    cols * rows
  }

  /** The row-major index of grid cell (`col`, `row`). */
  function CellIndex(row: int, col: int, cols: int): int {
    row * cols + col
  }

  /** The centre of grid cell (`col`, `row`) in pixels. */
  function CellCentre(col: int, row: int): (real, real) {
    (col as real * CharWidth + CharWidth / 2.0, row as real * LineHeight + LineHeight / 2.0)
  }

  /** The squared distance from the pointer to the centre of a cell. */
  function SqDist(col: int, row: int, mx: real, my: real): real {
    var (cx, cy) := CellCentre(col, row);
    (cx - mx) * (cx - mx) + (cy - my) * (cy - my)
  }

  /** The cell's centre is strictly within the 300 px radius. */
  predicate NearCell(col: int, row: int, mx: real, my: real) {
    SqDist(col, row, mx, my) < MouseRadius * MouseRadius
  }

  /** Index `idx` is in the grid and its cell (column `idx % cols`, row
      `floor(idx / cols)`) is near the pointer. */
  predicate NearIndex(cols: int, rows: int, mx: real, my: real, idx: int) {
    cols > 0 && rows >= 0 && 0 <= idx < cols * rows && NearCell(idx % cols, idx / cols, mx, my)
  }

  lemma SquareNonneg(a: real)
    ensures a * a >= 0.0
  {
    if a < 0.0 {
      MulNonneg(-a, -a);
    } else {
      MulNonneg(a, a);
    }
  }

  /** A square below 300² has its root between -300 and 300. */
  lemma SquareBelowRadius(a: real)
    requires a * a < MouseRadius * MouseRadius
    ensures -MouseRadius < a < MouseRadius
  {
    if a >= MouseRadius {
      MulNonneg(a - MouseRadius, a + MouseRadius);
    } else if a <= -MouseRadius {
      MulNonneg(MouseRadius - a, -a - MouseRadius);
    }
  }

  /** A near cell lies within `computeActiveCells`' bounding box. */
  lemma {:induction false} NearCellInBox(col: int, row: int, mx: real, my: real)
    requires NearCell(col, row, mx, my)
    ensures Floor((mx - MouseRadius) / CharWidth) <= col <= Ceil((mx + MouseRadius) / CharWidth)
    ensures Floor((my - MouseRadius) / LineHeight) <= row <= Ceil((my + MouseRadius) / LineHeight)
  {
    var (cx, cy) := CellCentre(col, row);
    SquareNonneg(cx - mx);
    SquareNonneg(cy - my);
    SquareBelowRadius(cx - mx);
    SquareBelowRadius(cy - my);
  }

  lemma MulNonnegInt(a: int, b: int)
    requires a >= 0 && b >= 0
    ensures a * b >= 0
  {
  }

  /** A multiple of `cols` strictly between `-cols` and `cols` is 0. */
  lemma ZeroMultiple(d: int, cols: int)
    requires cols > 0 && -cols < d * cols < cols
    ensures d == 0
  {
    if d >= 1 {
      MulNonnegInt(d - 1, cols);
    } else if d <= -1 {
      MulNonnegInt(-d - 1, cols);
    }
  }

  /** Row-major indices: `row * cols + col` is in the grid, and its quotient
      and remainder by `cols` give the row and the column back. */
  lemma IndexDecomposes(row: int, col: int, cols: int, rows: int)
    requires 0 <= row < rows && 0 <= col < cols
    ensures 0 <= CellIndex(row, col, cols) < cols * rows
    ensures CellIndex(row, col, cols) / cols == row && CellIndex(row, col, cols) % cols == col
  {
    MulNonnegInt(row, cols);
    MulNonnegInt(rows - row - 1, cols);
    assert (rows - row - 1) * cols == rows * cols - row * cols - cols;
    var idx := row * cols + col;
    var q, m := idx / cols, idx % cols;
    assert (q - row) * cols == col - m;
    ZeroMultiple(q - row, cols);
  }

  /** An in-grid index is `row * cols + col` for its own row and column. */
  lemma IndexComposes(idx: int, cols: int, rows: int)
    requires cols > 0 && 0 <= idx < cols * rows
    ensures 0 <= idx / cols < rows && 0 <= idx % cols < cols
    ensures idx == CellIndex(idx / cols, idx % cols, cols)
  {
  }

  /** The inner loop of `computeActiveCells`: adds the near cells of `row`
      between columns `minCol` and `maxCol`. */
  method ScanRow(cols: int, rows: int, gridLength: int, mx: real, my: real,
                 row: int, minCol: int, maxCol: int, acc: set<int>) returns (result: set<int>)
    requires 0 <= row < rows && 0 <= minCol && maxCol < cols && gridLength == cols * rows
    requires forall idx :: idx in acc ==> NearIndex(cols, rows, mx, my, idx)
    ensures acc <= result
    ensures forall idx :: idx in result ==> NearIndex(cols, rows, mx, my, idx)
    ensures forall c :: minCol <= c <= maxCol && NearCell(c, row, mx, my) ==> CellIndex(row, c, cols) in result
  {
    result := acc;
    var col := minCol;
    while col <= maxCol
      invariant minCol <= col && (col <= maxCol + 1 || col == minCol)
      invariant acc <= result
      invariant forall idx :: idx in result ==> NearIndex(cols, rows, mx, my, idx)
      invariant forall c :: minCol <= c < col && NearCell(c, row, mx, my) ==> CellIndex(row, c, cols) in result
    {
      if SqDist(col, row, mx, my) < MouseRadius * MouseRadius {
        var idx := CellIndex(row, col, cols);
        IndexDecomposes(row, col, cols, rows);
        if idx >= 0 && idx < gridLength {
          result := result + {idx};
        }
      }
      col := col + 1;
    }
  }

  /** The bounding box `computeActiveCells` scans: columns and rows within
      one radius of the pointer, cut to the grid. */
  function Box(cols: int, rows: int, mx: real, my: real): (box: (int, int, int, int))
    ensures 0 <= box.0 && box.1 < cols && 0 <= box.2 && box.3 < rows
  {
    (MaxInt(0, Floor((mx - MouseRadius) / CharWidth)), MinInt(cols - 1, Ceil((mx + MouseRadius) / CharWidth)),
     MaxInt(0, Floor((my - MouseRadius) / LineHeight)), MinInt(rows - 1, Ceil((my + MouseRadius) / LineHeight)))
  }

  /** Every near in-grid cell lies in the box, so finding the near cells of
      the box finds them all. */
  lemma BoxCoversNear(cols: int, rows: int, mx: real, my: real, result: set<int>)
    requires var (minCol, maxCol, minRow, maxRow) := Box(cols, rows, mx, my);
      forall r, c :: minRow <= r <= maxRow && minCol <= c <= maxCol && NearCell(c, r, mx, my) ==>
        CellIndex(r, c, cols) in result
    ensures forall idx :: NearIndex(cols, rows, mx, my, idx) ==> idx in result
  {
    forall idx | NearIndex(cols, rows, mx, my, idx)
      ensures idx in result
    {
      IndexComposes(idx, cols, rows);
      NearCellInBox(idx % cols, idx / cols, mx, my);
    }
  }

  /** `computeActiveCells` while hovering: every in-grid cell whose centre is
      strictly within 300 px of the pointer, found by scanning the bounding
      box of the circle. */
  method ComputeActiveCells(cols: int, rows: int, gridLength: int, mx: real, my: real, hovering: bool)
    returns (result: set<int>)
    requires cols >= 0 && rows >= 0 && gridLength == cols * rows
    ensures !hovering ==> result == {}
    ensures hovering ==> forall idx :: idx in result <==> NearIndex(cols, rows, mx, my, idx)
  {
    if !hovering {
      return {};
    }
    result := {};
    var (minCol, maxCol, minRow, maxRow) := Box(cols, rows, mx, my);
    var row := minRow;
    while row <= maxRow
      invariant minRow <= row && (row <= maxRow + 1 || row == minRow)
      invariant forall idx :: idx in result ==> NearIndex(cols, rows, mx, my, idx)
      invariant forall r, c :: minRow <= r < row && minCol <= c <= maxCol && NearCell(c, r, mx, my) ==>
        CellIndex(r, c, cols) in result
    {
      result := ScanRow(cols, rows, gridLength, mx, my, row, minCol, maxCol, result);
      row := row + 1;
    }
    BoxCoversNear(cols, rows, mx, my, result);
  }

  /** Every value of the buffer is between 0 and the largest write. */
  ghost predicate Bounded(b: array<real>)
    reads b
  {
    forall i :: 0 <= i < b.Length ==> 0.0 <= b[i] <= MaxBrightness
  }

  /** The tick's decay pass: every lit cell outside the spotlight dims by
      0.0015, floored at 0. Returns the cells that went dark, which lose
      their accent colour. */
  method DecayCells(b: array<real>, active: set<int>) returns (cleared: set<int>)
    modifies b
    ensures forall i :: 0 <= i < b.Length ==>
      b[i] == (if old(b[i]) > 0.0 && i !in active then Decayed(old(b[i])) else old(b[i]))
    ensures forall i :: i in cleared <==> 0 <= i < b.Length && old(b[i]) > 0.0 && i !in active && b[i] <= 0.0
  {
    cleared := {};
    var i := 0;
    while i < b.Length
      invariant 0 <= i <= b.Length
      invariant forall j :: 0 <= j < i ==>
        b[j] == (if old(b[j]) > 0.0 && j !in active then Decayed(old(b[j])) else old(b[j]))
      invariant forall j :: i <= j < b.Length ==> b[j] == old(b[j])
      invariant forall j :: j in cleared <==> 0 <= j < i && old(b[j]) > 0.0 && j !in active && b[j] <= 0.0
    {
      if b[i] > 0.0 && i !in active {
        b[i] := Max(0.0, b[i] - FadeStep);
        if b[i] <= 0.0 {
          cleared := cleared + {i};
        }
      }
      i := i + 1;
    }
  }

  /** The value the drain leaves in a cell: cells of the old text still lit
      lose their clear amount at this progress. */
  function DrainAt(b: real, fading: Mask, progress: real, i: int): real {
    if MaskAt(Some(fading), i) > MaskOn && b > 0.0
    then Drained(b, SweepAmount(progress, ThresholdAt(Some(fading), i)))
    else b
  }

  /** The tick's drain pass over the old text at `progress`. Reports whether
      any cell of the old text is still lit. */
  method DrainCells(b: array<real>, fading: Mask, progress: real) returns (anyLeft: bool)
    modifies b
    ensures forall i :: 0 <= i < b.Length ==> b[i] == DrainAt(old(b[i]), fading, progress, i)
    ensures anyLeft <==> exists i :: 0 <= i < b.Length && MaskAt(Some(fading), i) > MaskOn && old(b[i]) > 0.0 && b[i] > 0.0
  {
    anyLeft := false;
    var i := 0;
    while i < b.Length
      invariant 0 <= i <= b.Length
      invariant forall j :: 0 <= j < i ==> b[j] == DrainAt(old(b[j]), fading, progress, j)
      invariant forall j :: i <= j < b.Length ==> b[j] == old(b[j])
      invariant anyLeft <==> exists j :: 0 <= j < i && MaskAt(Some(fading), j) > MaskOn && old(b[j]) > 0.0 && b[j] > 0.0
    {
      if MaskAt(Some(fading), i) > MaskOn && b[i] > 0.0 {
        var threshold := ThresholdAt(Some(fading), i);
        var clearAmount := Max(0.0, Min(1.0, (progress * 1.3 - threshold) * 4.0));
        if clearAmount > 0.0 {
          b[i] := Max(0.0, Mul01(b[i], 1.0 - clearAmount));
        }
        if b[i] > 0.0 {
          anyLeft := true;
        }
      }
      i := i + 1;
    }
  }

  /** What the merge pass reads besides the buffer: the theme's dapple
      alpha, the dapple intensity, the current highlight mask and its reveal
      progress, the highlight's intensity and the theme's highlight alpha. */
  datatype MergeParams = MergeParams(dappleAlpha: real, dappleIntensity: real, mask: Option<Mask>,
                                     revealProgress: real, hlIntensity: real, hlBase: real)

  predicate ParamsInRange(p: MergeParams) {
    0.0 <= p.dappleAlpha <= MaxBrightness && 0.0 <= p.dappleIntensity <= 1.0 &&
    0.0 <= p.hlIntensity <= 1.0 && 0.0 <= p.hlBase <= MaxBrightness
  }

  /** `maskVal`: the mask only counts while the highlight is visible and its
      reveal has begun. */
  function MaskValAt(p: MergeParams, idx: int): int {
    if p.mask.Some? && p.hlIntensity > 0.01 && p.revealProgress > 0.0 then MaskAt(p.mask, idx) else 0
  }

  /** `edge`: the noise at a cell, mapped into [0, 1]. */
  function Edge(combined: real): (r: real)
    ensures 0.0 <= r <= 1.0
  {
    Clamp01(combined * 2.0 + 0.3)
  }

  /** The merge pass's value for cell `idx` holding `b`, with noise `combined`. */
  function MergeAt(b: real, p: MergeParams, combined: real, idx: int): real {
    MergeCell(b, Edge(combined), p.dappleAlpha, p.dappleIntensity, MaskValAt(p, idx),
              ThresholdAt(p.mask, idx), p.revealProgress, p.hlIntensity, p.hlBase)
  }

  /** Row-major order: the end of a row is the start of the next. */
  lemma NextRow(row: int, cols: int)
    ensures CellIndex(row, cols, cols) == CellIndex(row + 1, 0, cols)
  {
  }

  lemma GridEnd(cols: int, rows: int)
    ensures CellIndex(rows, 0, cols) == cols * rows
  {
  }

  /** The body of the merge pass for cell `idx`. */
  method MergeOne(b: array<real>, idx: int, combined: real, p: MergeParams)
    requires 0 <= idx < b.Length
    modifies b
    ensures b[idx] == MergeAt(old(b[idx]), p, combined, idx)
    ensures forall i :: 0 <= i < b.Length && i != idx ==> b[i] == old(b[i])
  {
    var edge := Edge(combined);
    var maskVal := MaskValAt(p, idx);
    var threshold := ThresholdAt(p.mask, idx);
    var cellReveal := SweepAmount(p.revealProgress, threshold);
    var inTextRegion := maskVal > MaskOn && cellReveal > 0.01;
    if inTextRegion {
      var hlAlpha := HighlightAlpha(maskVal, p.hlIntensity, cellReveal, p.hlBase);
      if hlAlpha > b[idx] {
        b[idx] := hlAlpha;
      }
    } else {
      var totalAlpha := DappleAlpha(edge, p.dappleAlpha, p.dappleIntensity, maskVal, p.hlIntensity, cellReveal);
      if totalAlpha > 0.01 {
        if totalAlpha > b[idx] {
          b[idx] := totalAlpha;
        }
      }
    }
  }

  /** The inner loop of the merge pass: the cells of one row. `want` holds
      each cell's merged value. */
  method MergeRow(b: array<real>, cols: nat, rows: nat, row: nat, noise: seq<real>, p: MergeParams,
                  ghost want: seq<real>)
    requires b.Length == cols * rows && |noise| == b.Length && |want| == b.Length && row < rows
    requires forall i :: 0 <= i < b.Length ==> want[i] == MergeAt(b[i], p, noise[i], i)
    modifies b
    ensures forall i :: CellIndex(row, 0, cols) <= i < CellIndex(row + 1, 0, cols) ==> b[i] == want[i]
    ensures forall i :: 0 <= i < b.Length && !(CellIndex(row, 0, cols) <= i < CellIndex(row + 1, 0, cols)) ==>
      b[i] == old(b[i])
  {
    RowStartInGrid(row + 1, cols, rows);
    NextRow(row, cols);
    ghost var start := CellIndex(row, 0, cols);
    var col := 0;
    while col < cols
      invariant 0 <= col <= cols
      invariant forall i :: start <= i < start + col ==> b[i] == want[i]
      invariant forall i :: 0 <= i < b.Length && !(start <= i < start + col) ==> b[i] == old(b[i])
    {
      var idx := CellIndex(row, col, cols);
      assert idx == start + col;
      MergeOne(b, idx, noise[idx], p);
      col := col + 1;
    }
  }

  /** The tick's merge pass: the dappled light and the revealed highlight
      are max-merged into every cell, row by row. */
  method MergeCells(b: array<real>, cols: nat, rows: nat, noise: seq<real>, p: MergeParams)
    requires b.Length == cols * rows && |noise| == b.Length
    modifies b
    ensures forall i :: 0 <= i < b.Length ==> b[i] == MergeAt(old(b[i]), p, noise[i], i)
  {
    ghost var want := seq(b.Length, i requires 0 <= i < b.Length reads b => MergeAt(b[i], p, noise[i], i));
    var row := 0;
    GridEnd(cols, rows);
    RowStartInGrid(0, cols, rows);
    while row < rows
      invariant 0 <= row <= rows
      invariant 0 <= CellIndex(row, 0, cols) <= b.Length
      invariant forall i :: 0 <= i < CellIndex(row, 0, cols) ==> b[i] == want[i]
      invariant forall i :: CellIndex(row, 0, cols) <= i < b.Length ==> b[i] == old(b[i])
    {
      MergeRow(b, cols, rows, row, noise, p, want);
      row := row + 1;
      RowStartInGrid(row, cols, rows);
    }
  }

  /** The start of row `row` lies in the grid, and rows start in order. */
  lemma RowStartInGrid(row: nat, cols: nat, rows: nat)
    requires row <= rows
    ensures 0 <= CellIndex(row, 0, cols) <= cols * rows
    ensures row > 0 ==> CellIndex(row - 1, 0, cols) + cols == CellIndex(row, 0, cols)
  {
    MulNonnegInt(row, cols);
    MulNonnegInt(rows - row, cols);
  }

  /** The merge pass keeps the buffer within [0, 0.85] and never dims a cell. */
  lemma MergeAtBounded(b: real, p: MergeParams, combined: real, idx: int)
    requires ParamsInRange(p) && 0.0 <= b <= MaxBrightness
    ensures b <= MergeAt(b, p, combined, idx) <= MaxBrightness
  {
  }

  /** The reduced-motion static frame: the dapple alone, max-merged. */
  method StaticFrame(b: array<real>, noise: seq<real>, dappleAlpha: real)
    requires |noise| == b.Length
    modifies b
    ensures forall i :: 0 <= i < b.Length ==> b[i] == Max(old(b[i]), Mul01(Edge(noise[i]), dappleAlpha))
  {
    var i := 0;
    while i < b.Length
      invariant 0 <= i <= b.Length
      invariant forall j :: 0 <= j < i ==> b[j] == Max(old(b[j]), Mul01(Edge(noise[j]), dappleAlpha))
      invariant forall j :: i <= j < b.Length ==> b[j] == old(b[j])
    {
      b[i] := Max(b[i], Mul01(Edge(noise[i]), dappleAlpha));
      i := i + 1;
    }
  }

  /** The spotlight's value for a cell `brightenNearMouse` visits. */
  function SpotAt(b: real, cells: set<int>, skip: Option<Mask>, alpha: real, dists: seq<real>, i: int): real
    requires 0 <= i < |dists|
  {
    if i in cells && MaskAt(skip, i) <= MaskOn then Max(b, SpotValue(alpha, dists[i])) else b
  }

  /** Whether the cell draws an accent: bright enough and the random draw
      below 0.08. */
  predicate DrawsAccent(cells: set<int>, skip: Option<Mask>, dists: seq<real>, rolls: seq<real>, i: int)
    requires 0 <= i < |dists| && |rolls| == |dists|
  {
    i in cells && MaskAt(skip, i) <= MaskOn && 1.0 - dists[i] / MouseRadius > 0.4 && rolls[i] < 0.08
  }

  /** The loop of `brightenNearMouse` over the new active cells: each one not
      inside the shown text (`skip`) is raised to the spotlight's value at
      its distance. Returns the cells that draw an accent. The cells are
      visited in index order; each is written once, so the order does not
      change the result. */
  method SpotlightCells(b: array<real>, cells: set<int>, skip: Option<Mask>, alpha: real,
                        dists: seq<real>, rolls: seq<real>) returns (accents: set<int>)
    requires |dists| == b.Length && |rolls| == b.Length
    modifies b
    ensures forall i :: 0 <= i < b.Length ==> b[i] == SpotAt(old(b[i]), cells, skip, alpha, dists, i)
    ensures forall i :: i in accents <==> 0 <= i < b.Length && DrawsAccent(cells, skip, dists, rolls, i)
  {
    accents := {};
    var idx := 0;
    while idx < b.Length
      invariant 0 <= idx <= b.Length
      invariant forall i :: 0 <= i < idx ==> b[i] == SpotAt(old(b[i]), cells, skip, alpha, dists, i)
      invariant forall i :: idx <= i < b.Length ==> b[i] == old(b[i])
      invariant forall i :: i in accents <==> 0 <= i < idx && DrawsAccent(cells, skip, dists, rolls, i)
    {
      if idx in cells && MaskAt(skip, idx) <= MaskOn {
        var intensity := 1.0 - dists[idx] / MouseRadius;
        b[idx] := Max(b[idx], Mul01(Mul01(alpha, intensity), intensity));
        if intensity > 0.4 && rolls[idx] < 0.08 {
          accents := accents + {idx};
        }
      }
      idx := idx + 1;
    }
  }

  /** The reveal threshold of cell `i` from its sine `sin(i * 127.1 + 311.7)`. */
  function RevealThreshold(sine: real): (r: real)
    ensures 0.0 <= r < 1.0
  {
    Frac(sine * 43758.5453)
  }

  /** The loop at the end of `updateHighlightMask`: the alpha channel of the
      RGBA pixels becomes the mask, and each cell's hash its threshold. */
  method ReadMask(pixels: seq<Byte>, sines: seq<real>) returns (m: Mask)
    requires |pixels| == 4 * |sines|
    ensures MaskValid(m) && |m.alpha| == |sines|
    ensures forall i :: 0 <= i < |sines| ==> m.alpha[i] == pixels[i * 4 + 3]
    ensures forall i :: 0 <= i < |sines| ==> m.threshold[i] == RevealThreshold(sines[i])
  {
    var alpha: seq<Byte> := [];
    var threshold: seq<real> := [];
    var i := 0;
    while i < |sines|
      invariant 0 <= i <= |sines| && |alpha| == i && |threshold| == i
      invariant forall j :: 0 <= j < i ==> alpha[j] == pixels[j * 4 + 3]
      invariant forall j :: 0 <= j < i ==> threshold[j] == RevealThreshold(sines[j])
    {
      alpha := alpha + [pixels[i * 4 + 3]];
      var h := sines[i] * 43758.5453;
      threshold := threshold + [h - Floor(h) as real];
      i := i + 1;
    }
    m := Mask(alpha, threshold);
  }

  /** `updateHighlightMask`, on the mask and its text: cleared for no text,
      kept while the text is unchanged, otherwise read from the text drawn
      at `TextLayout` on a cols x rows canvas (`pixels`). */
  method UpdateHighlightMask(hl: Option<Highlight>, mask: Option<Mask>, maskText: string,
                             pixels: seq<Byte>, sines: seq<real>)
    returns (newMask: Option<Mask>, newText: string)
    requires |pixels| == 4 * |sines|
    ensures hl.None? || hl.value.text == "" ==> newMask.None? && newText == ""
    ensures hl.Some? && hl.value.text != "" && hl.value.text == maskText && mask.Some? ==>
      newMask == mask && newText == maskText
    ensures hl.Some? && hl.value.text != "" && !(hl.value.text == maskText && mask.Some?) ==>
      newText == hl.value.text && newMask.Some? && MaskValid(newMask.value) && |newMask.value.alpha| == |sines| &&
      (forall i :: 0 <= i < |sines| ==> newMask.value.alpha[i] == pixels[i * 4 + 3]) &&
      (forall i :: 0 <= i < |sines| ==> newMask.value.threshold[i] == RevealThreshold(sines[i]))
  {
    if hl.None? || hl.value.text == "" {
      return None, "";
    }
    if hl.value.text == maskText && mask.Some? {
      return mask, maskText;
    }
    newText := hl.value.text;
    var m := ReadMask(pixels, sines);
    newMask := Some(m);
  }

  /** `updateLeaves` for one cell: the deepest a leaf covers it, -1 when none. */
  function LeafDepth(sdf: seq<real>): (r: real)
    ensures r >= -1.0 && forall k :: 0 <= k < |sdf| ==> sdf[k] <= r
    ensures r == -1.0 || exists k :: 0 <= k < |sdf| && sdf[k] == r
  {
    if sdf == [] then -1.0
    else
      var r := LeafDepth(sdf[..|sdf| - 1]);
      assert forall k :: 0 <= k < |sdf| - 1 ==> sdf[..|sdf| - 1][k] == sdf[k];
      if sdf[|sdf| - 1] > r then sdf[|sdf| - 1] else r
  }

  /** The colour a character is drawn in. */
  datatype Colour = Base | Accent | Accent2

  /** How `renderFrame` draws one cell: not at all when dark or deep under a
      leaf, otherwise with the brightness faded toward a leaf's edge. */
  datatype Glyph = Glyph(alpha: real, colour: Colour)

  /** `renderFrame` for cell `i`. */
  function DrawCell(b: real, depth: real, accent: bool, maskVal: int, i: nat): (g: Option<Glyph>)
    ensures g.Some? <==> b > 0.0 && depth <= 0.15
    ensures g.Some? ==> 0.0 <= g.value.alpha <= b
    ensures g.Some? && depth < 0.0 ==> g.value.alpha == b
    ensures g.Some? && 0.0 <= depth ==> g.value.alpha == b * (1.0 - depth / 0.15)
    ensures g.Some? ==> g.value.colour == if accent && maskVal <= MaskOn then
      (if i % 3 == 0 then Accent2 else Accent) else Base
  {
    if b <= 0.0 || depth > 0.15 then None
    else
      var leafMask := if depth >= 0.0 && depth <= 0.15 then 1.0 - depth / 0.15 else 1.0;
      MulNonneg(b, leafMask);
      MulNonneg(b, 1.0 - leafMask);
      var colour := if accent && !(maskVal > MaskOn) then (if i % 3 == 0 then Accent2 else Accent) else Base;
      Some(Glyph(b * leafMask, colour))
  }

  /** `updateLeaves`' inner loop for one cell: the largest leaf distance,
      starting from -1. */
  method MaxDepth(sdf: seq<real>) returns (maxDepth: real)
    ensures maxDepth == LeafDepth(sdf)
  {
    maxDepth := -1.0;
    var k := 0;
    while k < |sdf|
      invariant 0 <= k <= |sdf| && maxDepth == LeafDepth(sdf[..k])
    {
      assert sdf[..k + 1][..k] == sdf[..k];
      if sdf[k] > maxDepth {
        maxDepth := sdf[k];
      }
      k := k + 1;
    }
    assert sdf[..k] == sdf;
  }

  /** `updateLeaves`: every cell's leaf depth, in row-major order. */
  method UpdateLeaves(depth: array<real>, sdf: seq<seq<real>>)
    requires |sdf| == depth.Length
    modifies depth
    ensures forall i :: 0 <= i < depth.Length ==> depth[i] == LeafDepth(sdf[i])
  {
    var idx := 0;
    while idx < depth.Length
      invariant 0 <= idx <= depth.Length
      invariant forall i :: 0 <= i < idx ==> depth[i] == LeafDepth(sdf[i])
    {
      depth[idx] := MaxDepth(sdf[idx]);
      idx := idx + 1;
    }
  }

  /** A random draw in [0, 1) scaled to `n` picks an index below `n`. */
  function ScaledIndex(u: real, n: nat): (k: nat)
    requires 0.0 <= u < 1.0 && n > 0
    ensures k < n && k as real <= u * n as real < k as real + 1.0
  {
    MulNonneg(u, n as real);
    assert n as real - u * n as real == (1.0 - u) * n as real;
    assert (1.0 - u) * n as real > 0.0;
    Floor(u * n as real)
  }

  /** `initGrid`'s characters: one random character per draw. */
  method RandomChars(draws: seq<real>) returns (chars: array<char>)
    requires forall i :: 0 <= i < |draws| ==> 0.0 <= draws[i] < 1.0
    ensures fresh(chars) && chars.Length == |draws|
    ensures forall i :: 0 <= i < chars.Length ==> chars[i] == RandomChar(draws[i]) && chars[i] in Charset
  {
    chars := new char[|draws|];
    var i := 0;
    while i < |draws|
      invariant 0 <= i <= |draws|
      invariant forall j :: 0 <= j < i ==> chars[j] == RandomChar(draws[j])
    {
      chars[i] := RandomChar(draws[i]);
      i := i + 1;
    }
  }

  /** `highlightRef.current.text ?? ""`. */
  function HlText(hl: Option<Highlight>): string {
    if hl.Some? then hl.value.text else ""
  }

  /** `highlightRef.current.intensity ?? 0`. */
  function HlIntensity(hl: Option<Highlight>): real {
    if hl.Some? then hl.value.intensity else 0.0
  }

  /** Whether the tick runs its merge pass: while the dapple is visible or a
      highlight is shown. */
  predicate MergeRuns(dappleIntensity: real, mask: Option<Mask>, hlIntensity: real) {
    dappleIntensity > 0.001 || (mask.Some? && hlIntensity > 0.01)
  }

  /** The decay pass took the buffer from `before` to `after`: every lit
      cell outside the spotlight `active` dimmed, the others are unchanged. */
  ghost predicate DecayStep(before: seq<real>, after: seq<real>, active: set<int>) {
    |after| == |before| &&
    forall i :: 0 <= i < |before| ==>
      after[i] == (if before[i] > 0.0 && i !in active then Decayed(before[i]) else before[i])
  }

  /** The accents after a decay from `before` to `after`: those of
      `accentsBefore` except the cells the decay made dark. */
  ghost predicate AccentsAfterDecay(accentsBefore: set<int>, accents: set<int>, before: seq<real>,
                                    after: seq<real>, active: set<int>) {
    forall i :: i in accents <==> (i in accentsBefore &&
      !(0 <= i < |before| && i < |after| && before[i] > 0.0 && i !in active && after[i] <= 0.0))
  }

  /** The merge pass took the buffer from `before` to `after`: when it runs
      every cell takes its merged value, otherwise nothing changes. */
  ghost predicate Merged(before: seq<real>, after: seq<real>, dark: bool, dappleIntensity: real,
                         mask: Option<Mask>, revealProgress: real, hlIntensity: real, noise: seq<real>) {
    |after| == |before| && |noise| == |before| &&
    (MergeRuns(dappleIntensity, mask, hlIntensity) ==>
      var p := TickParams(dark, dappleIntensity, mask, revealProgress, hlIntensity);
      forall i :: 0 <= i < |before| ==> after[i] == MergeAt(before[i], p, noise[i], i)) &&
    (!MergeRuns(dappleIntensity, mask, hlIntensity) ==> after == before)
  }

  /** `updateHighlightMask`'s outcome for `text`: no mask for empty text, the
      old mask for the same text, otherwise a mask read from `pixels` and
      `sines`. */
  ghost predicate MaskUpdated(text: string, oldMask: Option<Mask>, oldText: string, mask: Option<Mask>,
                              maskText: string, pixels: seq<Byte>, sines: seq<real>) {
    (text == "" ==> mask.None? && maskText == "") &&
    (text != "" && text == oldText && oldMask.Some? ==> mask == oldMask && maskText == oldText) &&
    (text != "" && !(text == oldText && oldMask.Some?) ==>
      maskText == text && mask.Some? && |mask.value.alpha| == |sines| && |mask.value.threshold| == |sines| &&
      (forall i :: 0 <= i < |sines| && 4 * i + 3 < |pixels| ==> mask.value.alpha[i] == pixels[i * 4 + 3]) &&
      (forall i :: 0 <= i < |sines| ==> mask.value.threshold[i] == RevealThreshold(sines[i])))
  }

  /** The merge pass's parameters for the theme. */
  function TickParams(dark: bool, dappleIntensity: real, mask: Option<Mask>, revealProgress: real,
                      hlIntensity: real): (p: MergeParams)
    ensures 0.0 <= dappleIntensity <= 1.0 && 0.0 <= hlIntensity <= 1.0 ==> ParamsInRange(p)
  {
    MergeParams(if dark then DappleAlphaDark else DappleAlphaLight, dappleIntensity, mask,
                revealProgress, hlIntensity, if dark then 0.82 else 0.85)
  }

  /** The mask `brightenNearMouse` keeps the spotlight out of: the shown text,
      while it is visible and its reveal has begun. */
  function SpotlightSkip(mask: Option<Mask>, hlIntensity: real, revealProgress: real): Option<Mask> {
    if mask.Some? && hlIntensity > 0.1 && revealProgress > 0.0 then mask else None
  }

  /** A spotlight section's bounding rectangle. */
  datatype SectionRect = SectionRect(left: real, top: real, right: real, bottom: real)

  /** The pointer is over the section, edges included. */
  predicate Over(r: SectionRect, x: real, y: real) {
    x >= r.left && x <= r.right && y >= r.top && y <= r.bottom
  }

  /** The section loop of `onPointerMove`: whether the pointer is over any
      spotlight section, stopping at the first. */
  method OverAny(sections: seq<SectionRect>, x: real, y: real) returns (hovering: bool)
    ensures hovering <==> exists k :: 0 <= k < |sections| && Over(sections[k], x, y)
  {
    hovering := false;
    var k := 0;
    while k < |sections|
      invariant 0 <= k <= |sections| && !hovering
      invariant forall j :: 0 <= j < k ==> !Over(sections[j], x, y)
    {
      if Over(sections[k], x, y) {
        hovering := true;
        break;
      }
      k := k + 1;
    }
  }

  /** The spotlight keeps every cell it writes within [0, 0.85]. */
  lemma SpotAtBounded(b: real, cells: set<int>, skip: Option<Mask>, alpha: real, dists: seq<real>, i: int)
    requires 0 <= i < |dists| && 0.0 <= b <= MaxBrightness && 0.0 <= alpha <= MaxBrightness
    requires i in cells ==> 0.0 <= dists[i] && dists[i] * dists[i] < MouseRadius * MouseRadius
    ensures 0.0 <= SpotAt(b, cells, skip, alpha, dists, i) <= MaxBrightness
  {
    if i in cells {
      SquareBelowRadius(dists[i]);
    }
  }

  /** The effect's closure state: the grid, its buffers, the pointer, the
      dapple and the highlight's reveal and fade-out. */
  class AsciiField {
    var cols: nat
    var rows: nat
    var chars: array<char>
    var brightness: array<real>
    var leafDepth: array<real>
    var accentCells: set<int>
    var activeCells: set<int>
    var hlMask: Option<Mask>
    var hlMaskText: string
    var mouseX: real
    var mouseY: real
    var hovering: bool
    var cursorIdle: bool
    var lastMoveTime: real
    var dappleIntensity: real
    var hoverEndTime: real
    var hlRevealProgress: real
    var hlPrevText: string
    /** `fadingMask` with `fadingThresholds`. */
    var fading: Option<Mask>
    var fadeOutProgress: real
    /** How many ticks have drained the current fading mask. */
    ghost var fadeTicks: nat

    /** The buffers match the grid, brightness stays in [0, 0.85], every
        character comes from the set, the animation values stay in [0, 1],
        and a fading mask is at most 28 ticks old. */
    ghost predicate Valid()
      reads this, brightness, chars
    {
      chars.Length == CellCount(cols, rows) && brightness.Length == CellCount(cols, rows) &&
      leafDepth.Length == CellCount(cols, rows) &&
      brightness != leafDepth &&
      Bounded(brightness) &&
      (forall i :: 0 <= i < chars.Length ==> chars[i] in Charset) &&
      0.0 <= dappleIntensity <= 1.0 && 0.0 <= hlRevealProgress <= 1.0 && 0.0 <= fadeOutProgress <= 1.0 &&
      (hlMask.Some? ==> MaskValid(hlMask.value)) &&
      (fading.Some? ==> MaskValid(fading.value) && fadeTicks < 29 && fadeOutProgress == FadeProgressAfter(fadeTicks))
    }

    /** The state before the fonts load: an empty grid. */
    constructor ()
      ensures Valid() && cols == 0 && rows == 0
      ensures accentCells == {} && activeCells == {} && hlMask.None? && fading.None?
      ensures mouseX == OffScreen && mouseY == OffScreen && !hovering && !cursorIdle
      ensures dappleIntensity == 1.0 && hlRevealProgress == 0.0 && hlPrevText == ""
    {
      cols, rows := 0, 0;
      chars := new char[0];
      brightness := new real[0];
      leafDepth := new real[0];
      accentCells, activeCells := {}, {};
      hlMask, hlMaskText := None, "";
      mouseX, mouseY := OffScreen, OffScreen;
      hovering, cursorIdle := false, false;
      lastMoveTime := 0.0;
      dappleIntensity, hoverEndTime := 1.0, 0.0;
      hlRevealProgress, hlPrevText := 0.0, "";
      fading, fadeOutProgress := None, 0.0;
      fadeTicks := 0;
    }

    /** `setupCanvas`, with `initGrid`: a fresh grid for the viewport, dark,
        with random characters (`draws` are the `Math.random()` results) and
        no leaves. Nothing else is reset. */
    method Setup(width: real, height: real, draws: seq<real>)
      requires Valid() && width >= 0.0 && height >= 0.0
      requires |draws| == CellCount(GridSize(width, height).0, GridSize(width, height).1)
      requires forall i :: 0 <= i < |draws| ==> 0.0 <= draws[i] < 1.0
      modifies this
      ensures Valid()
      ensures (cols, rows) == GridSize(width, height)
      ensures fresh(chars) && fresh(brightness) && fresh(leafDepth)
      ensures forall i :: 0 <= i < chars.Length ==> chars[i] == RandomChar(draws[i])
      ensures forall i :: 0 <= i < brightness.Length ==> brightness[i] == 0.0
      ensures forall i :: 0 <= i < leafDepth.Length ==> leafDepth[i] == -1.0
      ensures accentCells == old(accentCells) && activeCells == old(activeCells)
      ensures hlMask == old(hlMask) && fading == old(fading) && hlRevealProgress == old(hlRevealProgress)
    {
      var (c, r) := GridSize(width, height);
      cols, rows := c, r;
      var n := CellCount(c, r);
      chars := RandomChars(draws);
      brightness := new real[n](_ => 0.0);
      leafDepth := new real[n](_ => -1.0);
    }

    /** The drift timer: one random cell gets a new random character; nothing
        happens on an empty grid. */
    method Drift(u: real, draw: real)
      requires Valid() && 0.0 <= u < 1.0 && 0.0 <= draw < 1.0
      modifies chars
      ensures Valid()
      ensures chars.Length == 0 ==> chars[..] == old(chars[..])
      ensures chars.Length > 0 ==> chars[..] == old(chars[..])[ScaledIndex(u, chars.Length) := RandomChar(draw)]
    {
      if chars.Length == 0 {
        return;
      }
      var idx := ScaledIndex(u, chars.Length);
      var c := RandomChar(draw);
      ghost var before := chars[..];
      chars[idx] := c;
      assert chars[..] == before[idx := c];
    }

    /** The idle check and the dapple easing at the start of `tick`: after a
        second without movement the hover stops counting and the spotlight
        goes out; the dapple fades while the hover counts. */
    method StepPointer(now: real)
      requires Valid()
      modifies this`cursorIdle, this`activeCells, this`dappleIntensity, this`hoverEndTime
      ensures Valid()
      ensures var goesIdle := old(hovering) && !old(cursorIdle) && now - lastMoveTime > IdleThreshold;
        cursorIdle == (old(cursorIdle) || goesIdle) &&
        activeCells == (if goesIdle then {} else old(activeCells))
      ensures dappleIntensity == DappleStep(old(dappleIntensity), hovering && !cursorIdle, now - old(hoverEndTime))
      ensures hoverEndTime == if hovering && !cursorIdle then now else old(hoverEndTime)
    {
      if hovering && !cursorIdle && now - lastMoveTime > IdleThreshold {
        cursorIdle := true;
        activeCells := {};
      }
      var effectiveHover := hovering && !cursorIdle;
      if effectiveHover {
        dappleIntensity := dappleIntensity + (0.0 - dappleIntensity) * DappleFadeSpeed;
        hoverEndTime := now;
      } else if now - hoverEndTime > DappleReturnDelay {
        dappleIntensity := dappleIntensity + (1.0 - dappleIntensity) * DappleFadeSpeed;
      }
    }

    /** The decay pass of `tick`: cells outside the spotlight dim, and those
        that go dark lose their accent. */
    method Decay()
      requires Valid()
      modifies brightness, this`accentCells
      ensures Valid()
      ensures forall i :: 0 <= i < brightness.Length ==>
        brightness[i] == (if old(brightness[i]) > 0.0 && i !in activeCells then Decayed(old(brightness[i]))
                          else old(brightness[i]))
      ensures forall i :: i in accentCells <==> (i in old(accentCells) &&
        !(0 <= i < brightness.Length && old(brightness[i]) > 0.0 && i !in activeCells && brightness[i] <= 0.0))
    {
      var cleared := DecayCells(brightness, activeCells);
      accentCells := accentCells - cleared;
    }

    /** The middle of `tick`: when the text changes, the current mask becomes
        the fading mask from progress 0; `updateHighlightMask` runs; a new
        text restarts the reveal. */
    method SwapHighlight(hl: Option<Highlight>, pixels: seq<Byte>, sines: seq<real>)
      requires Valid() && |pixels| == 4 * |sines|
      modifies this`fading, this`fadeOutProgress, this`fadeTicks, this`hlMask, this`hlMaskText,
               this`hlRevealProgress, this`hlPrevText
      ensures Valid()
      ensures var changing := HlText(hl) != old(hlPrevText);
        (changing && old(hlMask).Some? ==> fading == old(hlMask) && fadeOutProgress == 0.0) &&
        (!(changing && old(hlMask).Some?) ==> fading == old(fading) && fadeOutProgress == old(fadeOutProgress)) &&
        hlRevealProgress == (if changing then 0.0 else old(hlRevealProgress))
      ensures hlPrevText == HlText(hl)
      ensures HlText(hl) == "" ==> hlMask.None? && hlMaskText == ""
      ensures HlText(hl) != "" && HlText(hl) == old(hlMaskText) && old(hlMask).Some? ==>
        hlMask == old(hlMask) && hlMaskText == old(hlMaskText)
      ensures HlText(hl) != "" && !(HlText(hl) == old(hlMaskText) && old(hlMask).Some?) ==>
        hlMaskText == HlText(hl) && hlMask.Some? && |hlMask.value.alpha| == |sines| &&
        (forall i :: 0 <= i < |sines| ==> hlMask.value.alpha[i] == pixels[i * 4 + 3]) &&
        (forall i :: 0 <= i < |sines| ==> hlMask.value.threshold[i] == RevealThreshold(sines[i]))
    {
      var hlText := HlText(hl);
      var textChanging := hlText != hlPrevText;
      if textChanging && hlMask.Some? {
        fading := hlMask;
        fadeOutProgress := 0.0;
        fadeTicks := 0;
      }
      hlMask, hlMaskText := UpdateHighlightMask(hl, hlMask, hlMaskText, pixels, sines);
      if textChanging {
        hlRevealProgress := 0.0;
        hlPrevText := hlText;
      }
    }

    /** The drain of `tick`: the old text's cells go dark in the order of
        their thresholds, and the fading mask is dropped once none is lit or
        the progress reaches 1. */
    method DrainFading()
      requires Valid()
      modifies brightness, this`fading, this`fadeOutProgress, this`fadeTicks
      ensures Valid()
      ensures old(fading).None? ==> (fading.None? && fadeOutProgress == old(fadeOutProgress) &&
        brightness[..] == old(brightness[..]))
      ensures old(fading).Some? ==>
        fadeOutProgress == Min(1.0, old(fadeOutProgress) + FadeOutSweepSpeed) &&
        (forall i :: 0 <= i < brightness.Length ==>
          brightness[i] == DrainAt(old(brightness[i]), old(fading).value, fadeOutProgress, i)) &&
        (fading.Some? <==> (fadeOutProgress < 1.0 &&
          exists i :: 0 <= i < brightness.Length && MaskAt(old(fading), i) > MaskOn &&
                      old(brightness[i]) > 0.0 && brightness[i] > 0.0)) &&
        (fading.Some? ==> fading == old(fading))
    {
      if fading.None? {
        return;
      }
      fadeOutProgress := Min(1.0, fadeOutProgress + FadeOutSweepSpeed);
      fadeTicks := fadeTicks + 1;
      var anyLeft := DrainCells(brightness, fading.value, fadeOutProgress);
      if !anyLeft || fadeOutProgress >= 1.0 {
        fading := None;
      } else {
        FadeProgressClosedForm(fadeTicks);
      }
      forall i | 0 <= i < brightness.Length
        ensures 0.0 <= brightness[i] <= MaxBrightness
      {
        assert 0.0 <= old(brightness[i]) <= MaxBrightness;
      }
    }

    /** The reveal step of `tick`: held at 0 while the old text drains,
        advanced while non-empty text is seen up close, reversed when the
        camera moves away. */
    method StepReveal(textPresent: bool, hlIntensity: real)
      requires Valid()
      modifies this`hlRevealProgress
      ensures Valid()
      ensures hlRevealProgress == RevealStep(old(hlRevealProgress), fading.Some?, textPresent, hlIntensity)
    {
      if fading.Some? {
        hlRevealProgress := 0.0;
      } else if textPresent && hlIntensity > 0.3 {
        hlRevealProgress := Min(1.0, hlRevealProgress + HlRevealSpeed);
      } else if hlRevealProgress > 0.0 && hlIntensity < 0.1 {
        hlRevealProgress := Max(0.0, hlRevealProgress - HlRevealSpeed * 2.0);
      }
    }

    /** The merge pass of `tick`, when it runs. */
    method MergeLight(dark: bool, hlIntensity: real, noise: seq<real>)
      requires Valid() && |noise| == brightness.Length && 0.0 <= hlIntensity <= 1.0
      modifies brightness
      ensures Valid()
      ensures MergeRuns(dappleIntensity, hlMask, hlIntensity) ==>
        var p := TickParams(dark, dappleIntensity, hlMask, hlRevealProgress, hlIntensity);
        forall i :: 0 <= i < brightness.Length ==> brightness[i] == MergeAt(old(brightness[i]), p, noise[i], i)
      ensures !MergeRuns(dappleIntensity, hlMask, hlIntensity) ==> brightness[..] == old(brightness[..])
      ensures Merged(old(brightness[..]), brightness[..], dark, dappleIntensity, hlMask, hlRevealProgress,
                     hlIntensity, noise)
    {
      if dappleIntensity > 0.001 || (hlMask.Some? && hlIntensity > 0.01) {
        var p := TickParams(dark, dappleIntensity, hlMask, hlRevealProgress, hlIntensity);
        MergeCells(brightness, cols, rows, noise, p);
        forall i | 0 <= i < brightness.Length
          ensures 0.0 <= brightness[i] <= MaxBrightness
        {
          MergeAtBounded(old(brightness[i]), p, noise[i], i);
        }
      }
    }

    /** A drain step from progress `p` of the fading mask `f` took the
        buffer from `before` to `after`: the progress has advanced, every cell
        is drained, and the mask is kept exactly while the progress is below 1
        and some text cell is still lit. */
    ghost predicate Drained(before: seq<real>, after: seq<real>, f: Mask, p: real)
      reads this
    {
      |before| == |after| &&
      fadeOutProgress == Min(1.0, p + FadeOutSweepSpeed) &&
      (forall i :: 0 <= i < |after| ==> after[i] == DrainAt(before[i], f, fadeOutProgress, i)) &&
      (fading.Some? <==> (fadeOutProgress < 1.0 &&
        exists i :: 0 <= i < |after| && MaskAt(Some(f), i) > MaskOn && before[i] > 0.0 && after[i] > 0.0)) &&
      (fading.Some? ==> fading == Some(f))
    }

    /** The fading mask after the switch of text and the drain, taking the
        buffer from `before` to `after`: on a `snapshot` the old mask `mask`
        fades from progress 0, otherwise `fading` goes on; without a fading
        mask nothing drains. */
    ghost predicate FadeStepped(snapshot: bool, mask: Option<Mask>, fadingBefore: Option<Mask>, progress: real,
                                before: seq<real>, after: seq<real>)
      reads this
    {
      var f := if snapshot then mask else fadingBefore;
      var p := if snapshot then 0.0 else progress;
      (f.None? ==> fading.None? && fadeOutProgress == p && after == before) &&
      (f.Some? ==> Drained(before, after, f.value, p))
    }

    /** The start of `tick`: the leaves, the idle check with the dapple, and
        the decay. */
    method BeginTick(now: real, leafSdf: seq<seq<real>>)
      requires Valid() && |leafSdf| == leafDepth.Length
      modifies this`cursorIdle, this`activeCells, this`dappleIntensity, this`hoverEndTime, this`accentCells,
               brightness, leafDepth
      ensures Valid()
      ensures forall i :: 0 <= i < leafDepth.Length ==> leafDepth[i] == LeafDepth(leafSdf[i])
      ensures var goesIdle := hovering && !old(cursorIdle) && now - lastMoveTime > IdleThreshold;
        cursorIdle == (old(cursorIdle) || goesIdle) &&
        activeCells == (if goesIdle then {} else old(activeCells))
      ensures dappleIntensity == DappleStep(old(dappleIntensity), hovering && !cursorIdle, now - old(hoverEndTime))
      ensures hoverEndTime == if hovering && !cursorIdle then now else old(hoverEndTime)
      ensures DecayStep(old(brightness[..]), brightness[..], activeCells)
      ensures AccentsAfterDecay(old(accentCells), accentCells, old(brightness[..]), brightness[..], activeCells)
    {
      UpdateLeaves(leafDepth, leafSdf);
      StepPointer(now);
      Decay();
      assert forall i :: i < brightness.Length && 0 <= i < old(brightness.Length) ==> old(brightness[..])[i] == old(brightness[i]);
    }

    /** The highlight part of `tick`: the switch of text, the drain of the
        old text and the reveal of the new one. */
    method AdvanceHighlight(hl: Option<Highlight>, pixels: seq<Byte>, sines: seq<real>)
      requires Valid() && |pixels| == 4 * |sines|
      modifies this`fading, this`fadeOutProgress, this`fadeTicks, this`hlMask, this`hlMaskText,
               this`hlRevealProgress, this`hlPrevText, brightness
      ensures Valid()
      ensures hlPrevText == HlText(hl)
      ensures hlRevealProgress == RevealStep(if HlText(hl) != old(hlPrevText) then 0.0 else old(hlRevealProgress),
                                             fading.Some?, HlText(hl) != "", HlIntensity(hl))
      ensures fading.Some? ==> hlRevealProgress == 0.0 && fadeOutProgress < 1.0
      ensures MaskUpdated(HlText(hl), old(hlMask), old(hlMaskText), hlMask, hlMaskText, pixels, sines)
      ensures FadeStepped(HlText(hl) != old(hlPrevText) && old(hlMask).Some?, old(hlMask), old(fading),
                          old(fadeOutProgress), old(brightness[..]), brightness[..])
    {
      SwapHighlight(hl, pixels, sines);
      DrainFading();
      StepReveal(HlText(hl) != "", HlIntensity(hl));
    }

    /** The rest of `tick` after the decay: the highlight step, then the
        merge; `drained` names the buffer before the merge. */
    method FinishTick(hl: Option<Highlight>, dark: bool, noise: seq<real>, pixels: seq<Byte>, sines: seq<real>)
      returns (ghost drained: seq<real>)
      requires Valid() && |noise| == brightness.Length
      requires |pixels| == 4 * |sines| && 0.0 <= HlIntensity(hl) <= 1.0
      modifies this`fading, this`fadeOutProgress, this`fadeTicks, this`hlMask, this`hlMaskText,
               this`hlRevealProgress, this`hlPrevText, brightness
      ensures Valid()
      ensures hlPrevText == HlText(hl)
      ensures MaskUpdated(HlText(hl), old(hlMask), old(hlMaskText), hlMask, hlMaskText, pixels, sines)
      ensures FadeStepped(HlText(hl) != old(hlPrevText) && old(hlMask).Some?, old(hlMask), old(fading),
                          old(fadeOutProgress), old(brightness[..]), drained)
      ensures hlRevealProgress == RevealStep(if HlText(hl) != old(hlPrevText) then 0.0 else old(hlRevealProgress),
                                             fading.Some?, HlText(hl) != "", HlIntensity(hl))
      ensures fading.Some? ==> hlRevealProgress == 0.0 && fadeOutProgress < 1.0
      ensures Merged(drained, brightness[..], dark, dappleIntensity, hlMask, hlRevealProgress, HlIntensity(hl), noise)
    {
      AdvanceHighlight(hl, pixels, sines);
      drained := brightness[..];
      MergeLight(dark, HlIntensity(hl), noise);
    }

    /** One animation frame: leaves, idle check and dapple, decay, the switch
        of highlight text, the drain of the old text, the reveal of the new
        one and the merge of dapple and highlight. `leafSdf`, `noise`, `pixels`
        and `sines` are the frame's leaf distances, per-cell noise, the
        rasterised text and the per-cell hash sines; `decayed` and `drained`
        name the buffer after the decay and after the drain. */
    method Tick(now: real, hl: Option<Highlight>, dark: bool, leafSdf: seq<seq<real>>, noise: seq<real>,
                pixels: seq<Byte>, sines: seq<real>) returns (ghost decayed: seq<real>, ghost drained: seq<real>)
      requires Valid() && |leafSdf| == leafDepth.Length && |noise| == brightness.Length
      requires |pixels| == 4 * |sines| && 0.0 <= HlIntensity(hl) <= 1.0
      modifies this`cursorIdle, this`activeCells, this`dappleIntensity, this`hoverEndTime, this`accentCells,
               this`fading, this`fadeOutProgress, this`fadeTicks, this`hlMask, this`hlMaskText,
               this`hlRevealProgress, this`hlPrevText, brightness, leafDepth
      ensures Valid()
      ensures forall i :: 0 <= i < leafDepth.Length ==> leafDepth[i] == LeafDepth(leafSdf[i])
      ensures var goesIdle := hovering && !old(cursorIdle) && now - lastMoveTime > IdleThreshold;
        cursorIdle == (old(cursorIdle) || goesIdle) &&
        activeCells == (if goesIdle then {} else old(activeCells))
      ensures dappleIntensity == DappleStep(old(dappleIntensity), hovering && !cursorIdle, now - old(hoverEndTime))
      ensures DecayStep(old(brightness[..]), decayed, activeCells)
      ensures AccentsAfterDecay(old(accentCells), accentCells, old(brightness[..]), decayed, activeCells)
      ensures hlPrevText == HlText(hl)
      ensures MaskUpdated(HlText(hl), old(hlMask), old(hlMaskText), hlMask, hlMaskText, pixels, sines)
      ensures FadeStepped(HlText(hl) != old(hlPrevText) && old(hlMask).Some?, old(hlMask), old(fading),
                          old(fadeOutProgress), decayed, drained)
      ensures hlRevealProgress == RevealStep(if HlText(hl) != old(hlPrevText) then 0.0 else old(hlRevealProgress),
                                             fading.Some?, HlText(hl) != "", HlIntensity(hl))
      ensures fading.Some? ==> hlRevealProgress == 0.0 && fadeOutProgress < 1.0
      ensures Merged(drained, brightness[..], dark, dappleIntensity, hlMask, hlRevealProgress, HlIntensity(hl), noise)
    {
      BeginTick(now, leafSdf);
      decayed := brightness[..];
      drained := FinishTick(hl, dark, noise, pixels, sines);
    }

    /** After the spotlight: every cell holds its spotlight value over
        `before`, and the accents are those of `accentsBefore` and the new
        accent draws. */
    ghost predicate Spotlit(before: seq<real>, accentsBefore: set<int>, hl: Option<Highlight>, dark: bool,
                            dists: seq<real>, rolls: seq<real>)
      reads this, brightness
    {
      var skip := SpotlightSkip(hlMask, HlIntensity(hl), hlRevealProgress);
      var alpha := if dark then BrightAlphaDark else BrightAlphaLight;
      |before| == brightness.Length && |dists| == brightness.Length && |rolls| == brightness.Length &&
      (forall i :: 0 <= i < brightness.Length ==>
        brightness[i] == SpotAt(before[i], activeCells, skip, alpha, dists, i)) &&
      (forall i :: i in accentCells <==>
        i in accentsBefore || (0 <= i < brightness.Length && DrawsAccent(activeCells, skip, dists, rolls, i)))
    }

    /** `brightenNearMouse`: the cells near the pointer become the active set,
        and each one outside the shown text is raised to the spotlight's value
        (`dists` are the cells' distances to the pointer, `rolls` the accent
        draws). */
    method BrightenNearMouse(hl: Option<Highlight>, dark: bool, dists: seq<real>, rolls: seq<real>)
      requires Valid() && |dists| == brightness.Length && |rolls| == brightness.Length
      requires forall i :: 0 <= i < |dists| && cols > 0 ==>
        0.0 <= dists[i] && dists[i] * dists[i] == SqDist(i % cols, i / cols, mouseX, mouseY)
      modifies brightness, this`accentCells, this`activeCells
      ensures Valid()
      ensures !hovering ==> activeCells == {}
      ensures hovering ==> forall idx :: idx in activeCells <==> NearIndex(cols, rows, mouseX, mouseY, idx)
      ensures Spotlit(old(brightness[..]), old(accentCells), hl, dark, dists, rolls)
    {
      var newActive := ComputeActiveCells(cols, rows, brightness.Length, mouseX, mouseY, hovering);
      var skip := SpotlightSkip(hlMask, HlIntensity(hl), hlRevealProgress);
      var alpha := if dark then BrightAlphaDark else BrightAlphaLight;
      var accents := SpotlightCells(brightness, newActive, skip, alpha, dists, rolls);
      accentCells := accentCells + accents;
      activeCells := newActive;
      forall i | 0 <= i < brightness.Length
        ensures 0.0 <= brightness[i] <= MaxBrightness
      {
        if i in newActive {
          assert NearIndex(cols, rows, mouseX, mouseY, i);
        }
        SpotAtBounded(old(brightness[i]), newActive, skip, alpha, dists, i);
      }
    }

    /** The first part of `onPointerMove`: the pointer's position, the end of
        an idle spell when it moved, and whether it is over a spotlight
        section. */
    method Locate(x: real, y: real, now: real, sections: seq<SectionRect>)
      requires Valid()
      modifies this`mouseX, this`mouseY, this`lastMoveTime, this`cursorIdle, this`hovering
      ensures Valid()
      ensures mouseX == x && mouseY == y
      ensures (x != old(mouseX) || y != old(mouseY)) ==> lastMoveTime == now && !cursorIdle
      ensures !(x != old(mouseX) || y != old(mouseY)) ==>
        lastMoveTime == old(lastMoveTime) && cursorIdle == old(cursorIdle)
      ensures hovering <==> exists k :: 0 <= k < |sections| && Over(sections[k], x, y)
    {
      var moved := x != mouseX || y != mouseY;
      mouseX, mouseY := x, y;
      if moved {
        lastMoveTime := now;
        cursorIdle := false;
      }
      hovering := OverAny(sections, mouseX, mouseY);
    }

    /** `onPointerMove`: locate the pointer, then light the cells near it
        while the hover counts, or put the spotlight out. */
    method PointerMove(x: real, y: real, now: real, sections: seq<SectionRect>, hl: Option<Highlight>,
                       dark: bool, dists: seq<real>, rolls: seq<real>)
      requires Valid() && |dists| == brightness.Length && |rolls| == brightness.Length
      requires forall i :: 0 <= i < |dists| && cols > 0 ==>
        0.0 <= dists[i] && dists[i] * dists[i] == SqDist(i % cols, i / cols, x, y)
      modifies this`mouseX, this`mouseY, this`lastMoveTime, this`cursorIdle, this`hovering,
               this`accentCells, this`activeCells, brightness
      ensures Valid()
      ensures mouseX == x && mouseY == y
      ensures (x != old(mouseX) || y != old(mouseY)) ==> lastMoveTime == now && !cursorIdle
      ensures !(x != old(mouseX) || y != old(mouseY)) ==>
        lastMoveTime == old(lastMoveTime) && cursorIdle == old(cursorIdle)
      ensures hovering <==> exists k :: 0 <= k < |sections| && Over(sections[k], x, y)
      ensures !(hovering && !cursorIdle) ==> (activeCells == {} && brightness[..] == old(brightness[..]) &&
        accentCells == old(accentCells))
      ensures hovering && !cursorIdle ==>
        (forall idx :: idx in activeCells <==> NearIndex(cols, rows, x, y, idx)) &&
        Spotlit(old(brightness[..]), old(accentCells), hl, dark, dists, rolls)
    {
      Locate(x, y, now, sections);
      if hovering && !cursorIdle {
        BrightenNearMouse(hl, dark, dists, rolls);
      } else {
        activeCells := {};
      }
    }

    /** `onPointerLeave`: the pointer is off screen and nothing is lit by it. */
    method PointerLeave()
      requires Valid()
      modifies this`mouseX, this`mouseY, this`hovering, this`activeCells
      ensures Valid()
      ensures mouseX == OffScreen && mouseY == OffScreen && !hovering && activeCells == {}
    {
      mouseX, mouseY := OffScreen, OffScreen;
      hovering := false;
      activeCells := {};
    }
  }
}
