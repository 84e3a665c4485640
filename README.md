# Portfolio site logic, modelled in Dafny

This project models the logic layer beneath the markup of a portfolio web site, written in TypeScript and React:

- **ASCII ambient field** of the hero section. A grid of characters has a parallel brightness buffer, updated once per animation frame. A frame runs these steps in order:
  - the leaf-shadow depth map is recomputed;
  - the ambient dapple responds to hovering and to an idle timeout;
  - brightness decays;
  - the previous highlight text dissolves cell by cell;
  - a reveal-progress state machine steps;
  - a max-merge pass draws ambient light and the highlight text into the buffer.

  A pointer spotlight raises the cells near the pointer. The field is a class with `array` fields and one method per step.
- **Typewriter hook**: the `(roleIdx, charIdx, deleting)` state machine. Its `tick` returns the next delay. It has a 3000 ms start gate and a 530 ms cursor blink, and the traces of its tests are reproduced.
- **Camera path**: uniform Catmull–Rom interpolation and segment lookup.
- **Scatter and landed transforms**: the shared helpers and the local copies in the project card and in the "In the wild" section.
- **Scroll-driven sections**:
  - scroll progress, focus intensity and the highlight each section publishes;
  - the closest-project search;
  - the fill of the connection lines;
  - the label spotlight.
- **Axis overlays**: nearest-tick values, tick windows, the per-frame layout pass and the animation-frame scheduler.
- **Slideshow**: the beat-to-slide mapping.
- **Polaroid transition**: the clip insets and fade ranges of the hero zone.
- **Dappled-light tree construction**:
  - the Park–Miller generator;
  - the recursive spine and branch generator, with vectors abstracted to lengths, radii and levels;
  - the filter that selects branch segments;
  - buffer merging with index rebasing;
  - smoothstep and the canopy-clearing scale.
- **Small rules**:
  - the Cloudinary poster URL rewrite;
  - the skills list's min/max range highlight and its debounce;
  - the "No" button of the Valentine page: overlap, flee, safe target and the tap counter;
  - the card-tilt easing loop and its stop rule.

Numbers are `real`. Results of `Math.sin`, `Math.sqrt`, `Math.random`, noise fields, text rasterisation and `getBoundingClientRect` are inputs:

- a distance is passed with the requirement that its square is the squared offset;
- random draws are sequences of values in [0, 1).

Each source file is one module; `Common` holds the shared helpers. Operations that update state in place are class methods with `modifies` clauses. Pure computations are functions with lemmas about them.

## Model

| member | source | states |
|---|---|---|
| AsciiAmbient.RandomChar | src/components/HeroSection/AsciiAmbient.tsx:5 | a draw in [0, 1) picks a character of the set `{}[]·:.-+*<>/` and the vertical bar (also lines 72-74) |
| AsciiAmbient.GridSize | src/components/HeroSection/AsciiAmbient.tsx:6-8 | cols and rows are the floors of width / 9.92 and height / 27.2 (also lines 107-109) |
| AsciiAmbient.Mul01 | src/components/HeroSection/AsciiAmbient.tsx:461-470 | a product of two factors in [0, 1] is at most either factor |
| AsciiAmbient.MaskAt | src/components/HeroSection/AsciiAmbient.tsx:175 | a mask read is a byte, and 0 (JavaScript's `undefined > 20` is false, `?? 0`) outside the mask or with no mask (also lines 387, 447) |
| AsciiAmbient.ThresholdAt | src/components/HeroSection/AsciiAmbient.tsx:388 | a threshold read lies in [0, 1) for a valid mask, and is 0 with no thresholds (also line 450) |
| AsciiAmbient.SweepAmount | src/components/HeroSection/AsciiAmbient.tsx:389-392 | the clear/reveal amount clamp((1.3 p - threshold) * 4) lies in [0, 1]; it is 1 for p >= 1 and every threshold below 1, and 0 for p <= 0 (also lines 452-455) |
| AsciiAmbient.Decayed | src/components/HeroSection/AsciiAmbient.tsx:11 | a decayed value stays in [0, b] and is strictly smaller when b > 0 (also line 356) |
| AsciiAmbient.Drained | src/components/HeroSection/AsciiAmbient.tsx:394-396 | a drained value stays in [0, b] (brightness never increases), and a full clear makes it 0 |
| AsciiAmbient.SpotValue | src/components/HeroSection/AsciiAmbient.tsx:303-309 | the spotlight value alpha * i * i with i = 1 - d / 300 lies in [0, alpha] for d in [0, 300] |
| AsciiAmbient.DappleStep | src/components/HeroSection/AsciiAmbient.tsx:345-352 | dapple intensity stays in [0, 1]; it shrinks by the factor 0.96 while the hover counts, is held for 800 ms after, then closes 4% of the gap to 1 per tick |
| AsciiAmbient.RevealStep | src/components/HeroSection/AsciiAmbient.tsx:408-415 | reveal progress stays in [0, 1]; it is 0 while a fading mask exists, rises by 0.025 (cap 1) for non-empty text above intensity 0.3, falls by 0.05 (floor 0) below intensity 0.1, else is unchanged |
| AsciiAmbient.FadeProgressClosedForm | src/components/HeroSection/AsciiAmbient.tsx:369-383 | after k drain ticks from a fresh snapshot the fade-out progress is min(1, 0.035 k) |
| AsciiAmbient.FadeGoneWithin29Ticks | src/components/HeroSection/AsciiAmbient.tsx:383-405 | the progress first reaches 1, and so the fading mask is surely dropped, on the 29th tick |
| AsciiAmbient.HighlightAlpha | src/components/HeroSection/AsciiAmbient.tsx:459-463 | the text's alpha (mask / 255) * intensity * cellReveal * base lies in [0, base] |
| AsciiAmbient.DappleAlpha | src/components/HeroSection/AsciiAmbient.tsx:464-470 | the suppress factor lies in [0, 1], so the dapple alpha lies in [0, dappleAlpha] |
| AsciiAmbient.MergeCell | src/components/HeroSection/AsciiAmbient.tsx:457-474 | a merged cell is never dimmed, and never exceeds 0.85 when the inputs lie in their ranges |
| AsciiAmbient.TextLayoutPlacement | src/components/HeroSection/AsciiAmbient.tsx:216-223 | startX >= 0.35 fontSize; text that fits is centred on the grid, text that overflows is pinned at 0.35 fontSize |
| AsciiAmbient.NearCellInBox | src/components/HeroSection/AsciiAmbient.tsx:256-271 | every cell strictly within 300 px lies in the search box floor((m - 300) / size)..ceil((m + 300) / size) |
| AsciiAmbient.IndexDecomposes | src/components/HeroSection/AsciiAmbient.tsx:279-297 | idx = row * cols + col decomposes back to col = idx % cols and row = floor(idx / cols), within the grid |
| AsciiAmbient.ScanRow | src/components/HeroSection/AsciiAmbient.tsx:273-282 | one row of the search adds exactly the in-grid cells of the row strictly within 300 px |
| AsciiAmbient.BoxCoversNear | src/components/HeroSection/AsciiAmbient.tsx:256-271 | having scanned the clamped box, every near in-grid cell has been found |
| AsciiAmbient.ComputeActiveCells | src/components/HeroSection/AsciiAmbient.tsx:253-285 | empty when not hovering; otherwise exactly the in-grid indices whose cell centre is strictly within 300 px (squared distances) |
| AsciiAmbient.DecayCells | src/components/HeroSection/AsciiAmbient.tsx:354-359 | each lit cell outside the active set drops by 0.0015 floored at 0, others unchanged; returns exactly the cells that went dark |
| AsciiAmbient.DrainCells | src/components/HeroSection/AsciiAmbient.tsx:386-400 | every cell of the old text is multiplied by (1 - clearAmount); reports whether any such cell is still lit |
| AsciiAmbient.MergeOne | src/components/HeroSection/AsciiAmbient.tsx:424-474 | one cell becomes its merged value, others unchanged |
| AsciiAmbient.MergeRow | src/components/HeroSection/AsciiAmbient.tsx:423-475 | one row of cells becomes its merged values, the rest unchanged |
| AsciiAmbient.MergeCells | src/components/HeroSection/AsciiAmbient.tsx:422-476 | every cell becomes its merged value for its noise, its mask value and threshold |
| AsciiAmbient.MergeAtBounded | src/components/HeroSection/AsciiAmbient.tsx:417-477 | with parameters in range, the merge keeps a cell within [b, 0.85] |
| AsciiAmbient.StaticFrame | src/components/HeroSection/AsciiAmbient.tsx:537-553 | the reduced-motion frame max-merges edge * dappleAlpha into every cell |
| AsciiAmbient.SpotlightCells | src/components/HeroSection/AsciiAmbient.tsx:293-310 | each active cell not skipped by the text is raised to max(old, alpha * i * i), others unchanged; returns exactly the cells that draw an accent |
| AsciiAmbient.RevealThreshold | src/components/HeroSection/AsciiAmbient.tsx:239-240 | the reveal threshold h - floor(h) lies in [0, 1) |
| AsciiAmbient.ReadMask | src/components/HeroSection/AsciiAmbient.tsx:232-241 | the mask is the alpha channel, pixel i's fourth byte, and every threshold is the cell's hash fraction |
| AsciiAmbient.UpdateHighlightMask | src/components/HeroSection/AsciiAmbient.tsx:195-241 | no text clears the mask and its text; the same text with a mask keeps both; otherwise the mask is rebuilt for the new text |
| AsciiAmbient.LeafDepth | src/components/HeroSection/AsciiAmbient.tsx:139-143 | a cell's leaf depth is the largest leaf distance, -1 when no leaf reaches above it, and one of the distances otherwise |
| AsciiAmbient.MaxDepth | src/components/HeroSection/AsciiAmbient.tsx:139-143 | the inner loop computes exactly that depth |
| AsciiAmbient.UpdateLeaves | src/components/HeroSection/AsciiAmbient.tsx:133-147 | every cell's depth becomes its leaf depth |
| AsciiAmbient.DrawCell | src/components/HeroSection/AsciiAmbient.tsx:159-182 | a cell is drawn exactly when it is lit and not deeper than 0.15 under a leaf; its alpha is the brightness, faded linearly to 0 across a leaf's edge (b (1 - depth / 0.15) for depth >= 0), so never above the brightness; an accent cell outside the text is drawn in the second accent colour when i % 3 = 0 and the first otherwise, every other cell in the base colour |
| AsciiAmbient.ScaledIndex | src/components/HeroSection/AsciiAmbient.tsx:73 | floor(u * n) is an index below n for u in [0, 1) (also line 529) |
| AsciiAmbient.RandomChars | src/components/HeroSection/AsciiAmbient.tsx:110-114 | a fresh array with one random character of the set per draw |
| AsciiAmbient.TickParams | src/components/HeroSection/AsciiAmbient.tsx:420-460 | the theme's dapple alpha 0.12 or 0.2 and highlight alpha 0.82 or 0.85 keep the merge's parameters in range |
| AsciiAmbient.OverAny | src/components/HeroSection/AsciiAmbient.tsx:497-509 | hovering holds iff the pointer lies in some section rectangle, bounds included |
| AsciiAmbient.SpotAtBounded | src/components/HeroSection/AsciiAmbient.tsx:299-309 | the spotlight keeps a cell within [0, 0.85] when the distance is below 300 |
| AsciiAmbient.AsciiField.constructor | src/components/HeroSection/AsciiAmbient.tsx:95-100 | the initial state: empty grid, off-screen pointer, dapple 1, no masks (also lines 117-119, 191-193, 245-249, 318-330) |
| AsciiAmbient.AsciiField.Setup | src/components/HeroSection/AsciiAmbient.tsx:107-131 | the grid is sized by the viewport; chars, brightness and leaf depth each have cols * rows cells; brightness is all 0, depth all -1, every char from the set |
| AsciiAmbient.AsciiField.Drift | src/components/HeroSection/AsciiAmbient.tsx:527-531 | one in-range char is replaced by a char from the set; nothing happens on an empty grid |
| AsciiAmbient.AsciiField.StepPointer | src/components/HeroSection/AsciiAmbient.tsx:340-352 | after more than 1000 ms without movement the cursor is idle and the active set is cleared; the dapple follows DappleStep |
| AsciiAmbient.AsciiField.Decay | src/components/HeroSection/AsciiAmbient.tsx:354-359 | the decay pass on the buffer, and cells that went dark leave the accent set |
| AsciiAmbient.AsciiField.SwapHighlight | src/components/HeroSection/AsciiAmbient.tsx:361-379 | on a text change with a mask the mask becomes the fading snapshot at progress 0; a text change resets the reveal; the mask follows UpdateHighlightMask |
| AsciiAmbient.AsciiField.DrainFading | src/components/HeroSection/AsciiAmbient.tsx:381-406 | progress rises by 0.035 capped at 1, the old text's cells drain, and the fading mask is kept only while progress < 1 and some marked cell is still lit |
| AsciiAmbient.AsciiField.StepReveal | src/components/HeroSection/AsciiAmbient.tsx:408-415 | the reveal progress follows RevealStep |
| AsciiAmbient.AsciiField.MergeLight | src/components/HeroSection/AsciiAmbient.tsx:417-477 | when the dapple or highlight is visible every cell takes its merged value, otherwise nothing changes; brightness stays in [0, 0.85] |
| AsciiAmbient.AsciiField.BeginTick | src/components/HeroSection/AsciiAmbient.tsx:336-359 | leaf depths are recomputed; the idle check clears the active set when the cursor goes idle, the dapple follows DappleStep; then every lit cell outside the active set decays and the cells that went dark lose their accent |
| AsciiAmbient.AsciiField.AdvanceHighlight | src/components/HeroSection/AsciiAmbient.tsx:361-415 | the text switch, drain and reveal: the mask follows updateHighlightMask; on a text change the old mask becomes the fading mask from progress 0; a fading mask advances by 0.035, drains every cell and is kept exactly while below 1 with a text cell still lit; the reveal follows RevealStep from 0 on a text change; a live fading mask implies reveal 0 and progress below 1 |
| AsciiAmbient.AsciiField.FinishTick | src/components/HeroSection/AsciiAmbient.tsx:361-477 | the rest of a frame after the decay: the mask, fading mask, drain and reveal as in AdvanceHighlight, then the merge of the drained buffer when it runs |
| AsciiAmbient.AsciiField.Tick | src/components/HeroSection/AsciiAmbient.tsx:333-477 | one frame composed of its steps: leaf depths, idle state and dapple; the decayed buffer and the accents it leaves; the new mask; the drained buffer and the fading mask; the reveal; and the final brightness as the merge of the drained buffer when the merge runs, else the drained buffer; brightness stays in [0, 0.85] |
| AsciiAmbient.AsciiField.BrightenNearMouse | src/components/HeroSection/AsciiAmbient.tsx:287-312 | the active set is replaced by the near cells; each is raised to its spotlight value unless the shown text covers it; no cell dims; accents are added |
| AsciiAmbient.AsciiField.Locate | src/components/HeroSection/AsciiAmbient.tsx:487-509 | a move resets the idle state only if the coordinates changed; hovering iff the pointer is over a section |
| AsciiAmbient.AsciiField.PointerMove | src/components/HeroSection/AsciiAmbient.tsx:487-512 | as Locate, then the spotlight while the hover counts, else the active set is emptied |
| AsciiAmbient.AsciiField.PointerLeave | src/components/HeroSection/AsciiAmbient.tsx:514-519 | the pointer moves to (-9999, -9999), hovering and the active set are cleared |
| Typer.SlicePrefix | src/hooks/useTyper.tsx:48-56 | `slice(0, end)` is the prefix of length end within the string, counts from the back for a negative end, and is the whole string past the end |
| Typer.InitialInv | src/hooks/useTyper.tsx:23-28 | the first render shows items[0] in full, deleting, role 0, and satisfies the tick invariant |
| Typer.TickPreservesInv | src/hooks/useTyper.tsx:44-63 | with every role non-empty, each tick keeps 0 <= charIdx <= the role's length and roleIdx < the number of roles |
| Typer.TickShowsOneMore | src/hooks/useTyper.tsx:46-56 | the text shown is the role's prefix of length charIdx; typing shows one more character, deleting one fewer |
| Typer.TickDelays | src/hooks/useTyper.tsx:49-62 | reaching the role's end returns pauseAfterType (2000 by default) and flips to deleting; other typing ticks return 80 + 40 r in [80, 120); reaching 0 returns pauseAfterDelete (400) and moves to the next role modulo the count; other deleting ticks return deleteSpeed (40) |
| Typer.TyperHook.constructor | src/hooks/useTyper.tsx:23-28 | the initial display, cursor, refs and no timers |
| Typer.TyperHook.Attach | src/hooks/useTyper.tsx:31-40 | attaching the ref starts the observer and changes nothing else |
| Typer.TyperHook.Observe | src/hooks/useTyper.tsx:33-37 | the observer sets inView and disconnects once intersecting; coming into view arms the first tick 3000 ms later and the cursor interval, leaving view clears both (also lines 71-86) |
| Typer.TyperHook.Tick | src/hooks/useTyper.tsx:44-63 | the refs and delay are exactly the machine's step, and the display is the shown prefix |
| Typer.TyperHook.FireTick | src/hooks/useTyper.tsx:74-77 | a due tick steps the machine and re-arms the timeout after the returned delay |
| Typer.TyperHook.FireCursor | src/hooks/useTyper.tsx:84 | the cursor toggles every 530 ms and nothing else changes |
| Typer.Schedule | src/hooks/useTyper.tsx:74-78 | the loop yields one shown text and firing time per random draw |
| Typer.ScheduleStep | src/hooks/useTyper.tsx:74-77 | each step of the loop fires the next tick after the returned delay |
| Typer.HiGoTraceDeleting | src/hooks/__tests__/useTyper.test.tsx:89-135 | for ["Hi", "Go"] the first ticks show "H" at 3000 ms and "" at 3040 ms |
| Typer.HiGoTraceTyping | src/hooks/__tests__/useTyper.test.tsx:89-135 | after the 400 ms pause "G" and "Go" are typed 80 ms apart |
| Typer.HiGoTraceCycle | src/hooks/__tests__/useTyper.test.tsx:89-135 | after the 2000 ms pause "Go" is deleted and "H", "Hi" typed again |
| Typer.HiGoTrace | src/hooks/__tests__/useTyper.test.tsx:89-135 | the whole trace "H", "", "G", "Go", "G", "", "H", "Hi" with its firing times |
| Typer.CursorTrace | src/hooks/__tests__/useTyper.test.tsx:137-152 | coming into view, the cursor reads visible, hidden, visible at 0, 530 and 1060 ms while the text stays "Hi" |
| CameraPath.CatmullRomEndpoints | src/components/ProjectSection/cameraPath.ts:29-42 | a Catmull–Rom segment starts at p1 (u = 0) and ends at p2 (u = 1) whatever p0 and p3 are |
| CameraPath.Scaled | src/components/ProjectSection/cameraPath.ts:15-56 | scaledT = clamp(t, 0, 1) * n lies in [0, n] |
| CameraPath.SegmentAt | src/components/ProjectSection/cameraPath.ts:14-17 | the segment index lies in [0, n - 1], localT in [0, 1], and index + localT is scaledT |
| CameraPath.InterpolatePath | src/components/ProjectSection/cameraPath.ts:10-12 | no waypoints give (0, 0); one waypoint gives that waypoint |
| CameraPath.SegmentAtWaypoint | src/components/ProjectSection/cameraPath.ts:15-17 | at t = k / n the segment is k at local 0, or the last segment at local 1 for k = n |
| CameraPath.PassesThroughWaypoints | src/components/ProjectSection/cameraPath.ts:4-44 | the curve passes through every waypoint: at t = k / n it is waypoint k |
| CameraPath.ClampedEnds | src/components/ProjectSection/cameraPath.ts:15 | t <= 0 gives the first waypoint and t >= 1 the last, exactly (also src/components/ProjectSection/__tests__/cameraPath.test.ts:13-47) |
| CameraPath.TwoPointMidpoint | src/components/ProjectSection/__tests__/cameraPath.test.ts:60-68 | with two waypoints t = 0.5 gives their midpoint |
| CameraPath.GetSegmentInfo | src/components/ProjectSection/cameraPath.ts:51-60 | the index lies in [0, n] and localProgress in [0.5, 1] |
| CameraPath.RoundNearest | src/components/ProjectSection/cameraPath.ts:57 | rounding picks an integer of [0, n] nearest to scaledT, so the clamp to n never bites |
| CameraPath.SegmentInfoNearest | src/components/ProjectSection/cameraPath.ts:47-59 | the index returned is a waypoint nearest to the scaled progress |
| CameraPath.SegmentInfoExamples | src/components/ProjectSection/__tests__/cameraPath.test.ts:88-105 | for 5 waypoints, t = 0, 1, 0.5 and 0.3 give (0, 1), (4, 1), (2, 1) and (1, 0.8) |
| ScatterTransforms.FragmentTransform | src/utils/scatterTransforms.ts:11-28 | scattered (focus <= 0.5): offsets times 1.5, full rotation; landed: offsets times the hover spread, rotation times 0.35 |
| ScatterTransforms.HoverSpreadOnlyWhenLanded | src/utils/scatterTransforms.ts:23-26 | a scattered fragment ignores the hover spread; a landed one with spread 1 keeps its raw offsets (also src/utils/__tests__/scatterTransforms.test.ts:23-40) |
| ScatterTransforms.SnapThresholdScatters | src/utils/scatterTransforms.ts:19 | focus exactly 0.5 is scattered (also src/utils/__tests__/scatterTransforms.test.ts:42-47) |
| ScatterTransforms.ChildScatter | src/utils/scatterTransforms.ts:34-46 | landed gives the identity (0, 0, 0, scale 1); scattered uses the given offsets and rotation with scale scaleRange[0] or 1 |
| ScatterTransforms.LandedChildIsIdentity | src/utils/scatterTransforms.ts:40-44 | a landed child's transform does not depend on its offsets, rotation or scale range (also src/utils/__tests__/scatterTransforms.test.ts:58-61, 76-80) |
| ProjectCard.SeededRand | src/components/ProjectSection/ProjectCard.tsx:63-66 | the value lies in [0, 1) and differs from the sine product by a whole number |
| ProjectCard.ComputeTapePlacement | src/components/ProjectSection/ProjectCard.tsx:77-84 | the tape is 80 to 109 px wide, tilted by between -4 and 4 degrees, and teal exactly when the third draw exceeds 0.5 |
| ProjectCard.FragmentTransform | src/components/ProjectSection/ProjectCard.tsx:89-105 | scattered: offsets times 1.5 and full rotation; landed: rotation times 0.35, offsets times 1.25 only when hovered |
| ProjectCard.FragmentTransformAgrees | src/components/ProjectSection/ProjectCard.tsx:89-105 | the card's copy equals the shared helper called with spread 1.25 when hovered and 1 otherwise (also src/utils/scatterTransforms.ts:11-28) |
| ProjectCard.ChildScatter | src/components/ProjectSection/ProjectCard.tsx:111-123 | the card's copy equals the shared child transform (also src/utils/scatterTransforms.ts:34-46) |
| ProjectCard.StickySpread | src/components/ProjectSection/ProjectCard.tsx:379 | the notes' spread is 1.25 exactly when hovered and landed, 1 otherwise |
| ProjectCard.CardHover.constructor | src/components/ProjectSection/ProjectCard.tsx:605 | a card starts unhovered |
| ProjectCard.CardHover.Render | src/components/ProjectSection/ProjectCard.tsx:609-612 | after a render the card is hovered only if it was and is still landed, so it is never hovered while scattered |
| ProjectCard.CardHover.PointerEnter | src/components/ProjectSection/ProjectCard.tsx:625 | entering makes a landed card hovered and leaves a scattered one as it was |
| ProjectCard.CardHover.PointerLeave | src/components/ProjectSection/ProjectCard.tsx:626 | leaving always clears hovering |
| ProjectCard.CardHover.LandedEffect | src/components/ProjectSection/ProjectCard.tsx:615-619 | a card that lands with the pointer already inside it becomes hovered |
| ProjectSection.ScrollProgress | src/components/ProjectSection/index.tsx:105-114 | progress lies in [0, 1]; it is 1 when the section cannot scroll and otherwise the clamped fraction scrolled |
| ProjectSection.ActiveIndex | src/components/ProjectSection/index.tsx:128-140 | the active dot is a valid dot index |
| ProjectSection.ActiveIndexIsNearestWaypoint | src/components/ProjectSection/index.tsx:135-140 | for a progress in [0, 1] the active dot is the waypoint the camera path's segment lookup reports, so it is a nearest waypoint (also src/components/ProjectSection/cameraPath.ts:51-60) |
| ProjectSection.FocusIntensity | src/components/ProjectSection/index.tsx:152 | focus lies in [0, 1]; it is 0 out of view or 400 px or more from the active project, and 1 - d / 400 otherwise |
| ProjectSection.SectionHighlight | src/components/ProjectSection/index.tsx:151-156 | the title is published only on desktop in view; the intensity is 0 on mobile and the focus otherwise |
| ProjectSection.SectionRefs.constructor | src/components/HomeClient.tsx:16-26 | the shared refs start empty and hidden |
| ProjectSection.SectionRefs.Render | src/components/ProjectSection/index.tsx:151-168 | in view on desktop the crosshair and x axis follow the camera; out of view on desktop they end up hidden; on mobile they are left as they were |
| ProjectSection.FillFraction | src/components/ProjectSection/index.tsx:238-251 | the fill lies in [0, 1]; a line with no extent is empty, and a line is empty before its first waypoint and full after its last |
| ProjectSection.FadeFactor | src/components/ProjectSection/index.tsx:53-73 | full strength for 2000 ms of idleness, strictly positive while fading, 0 from 2800 ms on |
| ProjectSection.Boost | src/components/ProjectSection/index.tsx:52-84 | the boost lies in [0, the fade]; it is 0 at 280 px or more from the pointer |
| ProjectSection.LabelSpotlight.constructor | src/components/ProjectSection/index.tsx:47-49 | the pointer starts off-screen at (-9999, -9999) with the idle clock at 0 |
| ProjectSection.LabelSpotlight.PointerMove | src/components/ProjectSection/index.tsx:58-63 | the pointer position is recorded; the idle clock restarts exactly when the position changed |
| ProjectSection.LabelSpotlight.Tick | src/components/ProjectSection/index.tsx:66-87 | every label gets the boost of its distance under this frame's fade; all are 0 once the pointer has been idle for 2800 ms |
| InTheWild.ScrollProgress | src/components/InTheWild/index.tsx:335-341 | progress lies in [0, 1], the clamped fraction scrolled, and agrees with the project section's progress when the section can scroll |
| InTheWild.PanProgress | src/components/InTheWild/index.tsx:358-361 | the pan is 0 during the first 15% of the scroll, 1 at the end, and never above 1 |
| InTheWild.CameraX | src/components/InTheWild/index.tsx:359-362 | the camera is parked on the first project during the dwell and reaches the last project at the end |
| InTheWild.ClosestProject | src/components/InTheWild/index.tsx:365-374 | the result is a project at minimum distance from the camera, and the earliest of equally close ones |
| InTheWild.FocusIntensity | src/components/InTheWild/index.tsx:55 | focus lies in [0, 1]; it is 0 out of view and the card focus of the closest distance in view (also lines 375-377) |
| InTheWild.WildHighlight | src/components/InTheWild/index.tsx:378-381 | the closest title is published only in view, with an intensity in [0, 1] that is 0 out of view |
| InTheWild.CardFocus | src/components/InTheWild/index.tsx:515-516 | a card's focus lies in [0, 1]; it is 1 at the camera and 0 from 1400 px away |
| InTheWild.FillFraction | src/components/InTheWild/index.tsx:466-478 | the fill lies in [0, 1] and equals the project section's fill for the line from i to i + 1 of 3 projects |
| InTheWild.FragmentTransform | src/components/InTheWild/index.tsx:62-73 | equals the shared fragment transform with spread 1 |
| InTheWild.ChildScatter | src/components/InTheWild/index.tsx:75-86 | equals the shared child transform without a scale range, less the scale |
| TickMath.ClosestValueNearest | src/components/GridTicks.tsx:55-58 | the highlighted value is a multiple of 200 within 100 px of the viewport centre, in (c - 100, c + 100] (also src/components/XAxisTicks.tsx:64-69) |
| TickMath.WindowStartMultiple | src/components/GridTicks.tsx:61-63 | the window starts at a multiple of 200 below the closest value (also src/components/XAxisTicks.tsx:72-74) |
| TickMath.HighlightIndexExact | src/components/GridTicks.tsx:56-68 | tick i of the window carries the closest value exactly when i = 1 + ceil(extent / 400) (also src/components/XAxisTicks.tsx:67-79) |
| TickMath.CeilHalfBelow | src/components/GridTicks.tsx:23-62 | ceil(e / 400) <= ceil(e / 200) for a non-negative extent |
| TickMath.ClosestTickOnScreen | src/components/GridTicks.tsx:52-71 | in a viewport at least 160 px long the closest tick is never hidden (also src/components/XAxisTicks.tsx:60-69, 82) |
| TickMath.LayoutTick | src/components/GridTicks.tsx:68-92 | a tick is hidden exactly when it lies more than 20 px outside the viewport, and then keeps its position, label and highlight; a shown tick is placed, labelled with its value and highlighted exactly when it is the closest value (also src/components/XAxisTicks.tsx:79-103) |
| TickMath.LayoutAll | src/components/GridTicks.tsx:55-93 | every element j of the pass gets the value start + 200 j and the layout above (also src/components/XAxisTicks.tsx:64-104) |
| TickMath.LayoutKeepsHighlightAt | src/components/GridTicks.tsx:67-93 | when only index 1 + ceil(extent / 400) was highlighted before a pass, the same holds after it |
| TickMath.ShownHighlightUnique | src/components/GridTicks.tsx:79-89 | whatever stale classes it started with, a shown highlighted tick sits at index 1 + ceil(extent / 400) (also src/components/XAxisTicks.tsx:90-100) |
| GridTicks.TickCount | src/components/GridTicks.tsx:23-27 | ceil(h / 200) + 2 elements, none when that is not positive |
| GridTicks.ClosestTickExists | src/components/GridTicks.tsx:23-63 | the closest value's index is below the element count of a column built for the same height |
| GridTicks.GridOverlay.constructor | src/components/GridTicks.tsx:96-103 | the mount builds fresh elements, lays them out once, and leaves no frame pending and no rebuild requested |
| GridTicks.GridOverlay.BuildTicks | src/components/GridTicks.tsx:19-44 | every element is replaced by a fresh one, ceil(h / 200) + 2 of them |
| GridTicks.GridOverlay.UpdatePositions | src/components/GridTicks.tsx:46-94 | the elements become the layout pass over the old ones; the highlight stays at its one index when the height is unchanged |
| GridTicks.GridOverlay.RequestUpdate | src/components/GridTicks.tsx:105-120 | a rebuild request is remembered; exactly one frame is pending afterwards, and none is added when one already was |
| GridTicks.GridOverlay.OnScroll | src/components/GridTicks.tsx:122 | a scroll schedules a frame without asking for a rebuild |
| GridTicks.GridOverlay.OnResize | src/components/GridTicks.tsx:123 | a resize schedules a frame and asks for a rebuild |
| GridTicks.GridOverlay.RunFrame | src/components/GridTicks.tsx:110-119 | the frame clears the pending flag, rebuilds once if asked, then lays the elements out |
| XAxisTicks.TickCount | src/components/XAxisTicks.tsx:29-30 | ceil(w / 200) + 3 elements, none when that is not positive |
| XAxisTicks.ClosestTickExists | src/components/XAxisTicks.tsx:29-74 | while the window is no wider than at mount, the closest value's index is below the element count |
| XAxisTicks.XAxisOverlay.constructor | src/components/XAxisTicks.tsx:28-46 | the mount builds fresh elements for the mount width, unfaded (also line 118) |
| XAxisTicks.XAxisOverlay.Update | src/components/XAxisTicks.tsx:48-107 | hidden data fades the row and leaves the elements alone; visible data shows it and lays the elements out around -translateX |
| Slideshow.SlideIndex | src/app/be-mine/Slideshow.tsx:25-64 | the index names one of the 18 slides and is 0 for the first six beats |
| Slideshow.SlideAdvances | src/app/be-mine/Slideshow.tsx:46-63 | after the first slide, four beats later the next slide (cyclically) shows |
| Slideshow.SlideRepeats | src/app/be-mine/Slideshow.tsx:60-63 | after the first slide, the show repeats every 18 slides |
| Slideshow.SecondSlideStart | src/app/be-mine/Slideshow.tsx:55-58 | slide 1 starts exactly six beats in |
| Slideshow.SlideshowView.constructor | src/app/be-mine/Slideshow.tsx:71 | the show starts on slide 0 |
| Slideshow.SlideshowView.Tick | src/app/be-mine/Slideshow.tsx:75-80 | while the audio plays the slide follows its playback time; with no audio or paused audio it stays |
| HeroDappledZone.Lerp | src/components/HeroDappledZone/index.tsx:12-14 | t = 0 gives a and t = 1 gives b |
| HeroDappledZone.Clamp | src/components/HeroDappledZone/index.tsx:16-18 | the result lies in [min, max] and a value already inside is unchanged |
| HeroDappledZone.Ranged | src/components/HeroDappledZone/index.tsx:20-23 | 0 before start, 1 after end, linear in between, always in [0, 1] |
| HeroDappledZone.RangedMonotone | src/components/HeroDappledZone/index.tsx:20-23 | a later progress never gives a smaller sub-range value |
| HeroDappledZone.CardWidth | src/components/HeroDappledZone/index.tsx:36-39 | 90% of the viewport on mobile, min(760, 60%) on desktop |
| HeroDappledZone.ImageSize | src/components/HeroDappledZone/index.tsx:41-47 | the square image fits both the card's width and the viewport's height less the margins, and equals one of the two bounds |
| HeroDappledZone.TopOfCard | src/components/HeroDappledZone/index.tsx:52-53 | the card is centred but never closer to the top than the margin |
| HeroDappledZone.TargetInsetsBounds | src/components/HeroDappledZone/index.tsx:35-61 | the top and side insets are the stated percentages and strictly positive; the bottom inset is never negative |
| HeroDappledZone.FadesInSequence | src/components/HeroDappledZone/index.tsx:123-143 | the frame shows only once the vignette is gone, it casts its shadow exactly while visible, and tape and caption show only once the frame is fully shown, always together |
| HeroDappledZone.TransitionStartsFullScreen | src/components/HeroDappledZone/index.tsx:116-121 | progress 0 gives a full-screen clip with square corners |
| HeroDappledZone.OnlyVignetteEarly | src/components/HeroDappledZone/index.tsx:123-143 | up to 30% of the way the vignette fades linearly and nothing else is visible |
| HeroDappledZone.TransitionEnd | src/components/HeroDappledZone/index.tsx:116-143 | progress 1 gives the target insets, radius 3 and every fade complete |
| HeroDappledZone.Zone.constructor | src/components/HeroDappledZone/index.tsx:161-200 | the elements start with their initial inline styles |
| HeroDappledZone.Zone.HandleScroll | src/components/HeroDappledZone/index.tsx:105-145 | nothing changes while the section cannot scroll; otherwise every style follows the clamped scroll progress towards the target insets |
| Tree.MergedSizes | src/components/DappledLight/tree.ts:175-185 | the merged position and normal buffers hold 3 floats per vertex of every geometry and the index buffer one entry per index |
| Tree.MergedPrefix | src/components/DappledLight/tree.ts:190-206 | merging a prefix of the geometries gives a prefix of each merged buffer, so later geometries never overwrite earlier ones |
| Tree.VertexBlockOfGeometry | src/components/DappledLight/tree.ts:195-205 | geometry k's positions and normals sit verbatim at float 3 × (the vertices before it) |
| Tree.IndexBlockOfGeometry | src/components/DappledLight/tree.ts:198-203 | geometry k's indices, each shifted by the number of vertices before it, sit right after the indices of the geometries before it |
| Tree.CopyInto | src/components/DappledLight/tree.ts:195-196 | `set` copies the source at the offset and keeps everything before it |
| Tree.RebaseInto | src/components/DappledLight/tree.ts:199-201 | the inner loop writes the indices shifted by the vertex offset and keeps everything before them |
| Tree.Totals | src/components/DappledLight/tree.ts:175-181 | the first loop counts the vertices and indices of all geometries |
| Tree.MergeGeometries | src/components/DappledLight/tree.ts:174-216 | the merged buffers are the geometries' buffers laid end to end, with rebased indices; no index is set when there are no indices at all |
| Tree.AppendGeometry | src/components/DappledLight/tree.ts:190-206 | one pass of the copy loop extends each merged buffer by geometry k's share |
| Tree.KeptSegmentsExactly | src/components/DappledLight/tree.ts:23-26 | a segment gets a cylinder exactly when it is an input segment whose level lies in [minLevel, maxLevel] and whose length is at least 0.001 |
| Tree.CreateBranchGeometry | src/components/DappledLight/tree.ts:15-50 | no kept segment gives the empty geometry; otherwise the result is the merge of one cylinder per kept segment, in order |
| Tree.SmoothstepBounds | src/components/DappledLight/tree.ts:76-79 | smoothstep lies in [0, 1], is 0 at or below edge0 and 1 at or above edge1 |
| Tree.ClearingMultiplierBounds | src/components/DappledLight/tree.ts:159 | with strength and factor in [0, 1] the clearing multiplier lies in [strength, 1] |
| Tree.LeafScales | src/components/DappledLight/tree.ts:127-162 | leaf i's scale comes from the generator seeded with 137 after 5 i + 5 draws: four for the tilt, the fifth for the scale |
| Tree.LeafScaleBounds | src/components/DappledLight/tree.ts:143-160 | every leaf scale lies in [0.4 × strength, 1.4) with a clearing and in [0.4, 1.4) without |
| LSystem.OfLevelAppend | src/components/DappledLight/lsystem.ts:99-140 | the segments of one level in a concatenation are those of each part, in order |
| LSystem.OfLevelSubtree | src/components/DappledLight/lsystem.ts:140-182 | a sub-branch's sub-tree holds exactly one segment of its root's level, first, and none of a shallower level |
| LSystem.SpineRadiusDecreasing | src/components/DappledLight/lsystem.ts:95-96 | the spine tapers: each segment is strictly thinner than the ones before it |
| LSystem.SpineRadiusPositive | src/components/DappledLight/lsystem.ts:94-96 | every spine segment's radius lies in (0, 0.6] |
| LSystem.SubBranchesPerSpine | src/components/DappledLight/lsystem.ts:101-113 | a spine grows 25 level-1 sub-branches: 3 at joints 3, 6 and 9 and 2 at the eight other joints after the first |
| LSystem.ChildCountRange | src/components/DappledLight/lsystem.ts:172 | a draw in [0, 1) gives 2 or 3 children |
| LSystem.RootLengthRange | src/components/DappledLight/lsystem.ts:108 | a level-1 root is between 0.8 and 1.2 times the sub-branch length |
| LSystem.SpineSegs | src/components/DappledLight/lsystem.ts:94-99 | spine segment k has the spine's segment length, radius 0.6 (1 - 0.6 k / 12) and level 0 |
| LSystem.JointStep | src/components/DappledLight/lsystem.ts:104-112 | each level-1 sub-tree adds one level-1 root to a joint and no level-0 segment |
| LSystem.SpineComplete | src/components/DappledLight/lsystem.ts:94-123 | a finished spine has its 12 level-0 segments, 25 level-1 roots and every level in [0, 3] |
| LSystem.SpineStepLevels | src/components/DappledLight/lsystem.ts:94-123 | one iteration of the spine loop adds spine segment s and that joint's level-1 roots |
| LSystem.Builder.constructor | src/components/DappledLight/lsystem.ts:57-61 | the arrays start empty and the shared generator holds the seed |
| LSystem.Builder.RandomBranchDir | src/components/DappledLight/lsystem.ts:188-213 | a direction costs exactly five draws |
| LSystem.Builder.PushLeaf | src/components/DappledLight/lsystem.ts:144-169 | a leaf costs three draws and appends one leaf |
| LSystem.Builder.PushTipLeaves | src/components/DappledLight/lsystem.ts:143-155 | a last-level tip appends exactly 3 leaves of its own level and no segment |
| LSystem.Builder.GrowSubBranch | src/components/DappledLight/lsystem.ts:129-183 | the branch's own segment comes first and every descendant is deeper, with length × 0.55 and radius × 0.75 per level; a level-3 tip gets 3 leaves and no child; a branch of level 1 or 2 has 2 or 3 children one level deeper; a level-2 branch grows 2 or 3 tips and 1 + 3 × (tips) leaves |
| LSystem.Builder.GrowChildren | src/components/DappledLight/lsystem.ts:172-182 | the children's sub-trees are appended in order; exactly `numChildren` of their segments lie one level deeper, all lie deeper with the per-level shrinking, and when the children are last-level tips each adds one segment and 3 leaves |
| LSystem.ChildStep | src/components/DappledLight/lsystem.ts:173-181 | one more child's sub-tree keeps the shrinking and depth facts and adds exactly its root one level deeper |
| LSystem.RootAndChildren | src/components/DappledLight/lsystem.ts:139-182 | a branch followed by its children keeps the depth and shrinking facts, and its segments one level deeper are exactly its children's |
| LSystem.Builder.GrowJoint | src/components/DappledLight/lsystem.ts:104-112 | a joint appends exactly numSub level-1 roots, no level-0 segment, and only levels 1 to 3 |
| LSystem.Builder.SpineJoint | src/components/DappledLight/lsystem.ts:95-122 | one iteration appends spine segment s, then the 2 or 3 sub-branches of joint s (none at joint 0) |
| LSystem.Builder.GenerateSpine | src/components/DappledLight/lsystem.ts:81-124 | a spine appends its 12 level-0 segments in order, 25 level-1 roots, and only levels 0 to 3 |
| LSystem.GenerateTree | src/components/DappledLight/lsystem.ts:56-75 | the tree holds three spines' worth of level-0 segments, 75 level-1 roots, and only levels 0 to 3; missing options default to seed 42, length 50 and sub-branch length 6 |
| ParkMiller.JsRem | src/components/DappledLight/lsystem.ts:30 | JavaScript's remainder: equal to Dafny's for a non-negative dividend, strictly inside (-m, m), and negative only for a negative dividend (also src/components/DappledLight/tree.ts:221) |
| ParkMiller.MultipleOfModulus | src/components/DappledLight/lsystem.ts:30 | since 16807 is invertible modulo 2^31 - 1, s * 16807 is a multiple of the modulus only when s is |
| ParkMiller.StepNonZero | src/components/DappledLight/lsystem.ts:27-33 | a state in [1, 2^31 - 1) steps to a state in the same range (also src/components/DappledLight/tree.ts:218-224) |
| ParkMiller.StepNValid | src/components/DappledLight/lsystem.ts:27-33 | any number of draws keeps a valid state valid |
| ParkMiller.ZeroIsFixed | src/components/DappledLight/lsystem.ts:30-31 | a zero state stays zero and yields a draw below 0 |
| ParkMiller.StepOutputInUnitInterval | src/components/DappledLight/lsystem.ts:30-31 | from a valid state every draw lies in [0, 1) (also src/components/DappledLight/tree.ts:221-222) |
| ParkMiller.SeededRandom.constructor | src/components/DappledLight/lsystem.ts:27-28 | the closure starts with the seed as its state (also src/components/DappledLight/tree.ts:218-219) |
| ParkMiller.SeededRandom.Next | src/components/DappledLight/lsystem.ts:29-32 | one call steps the state and returns (s - 1) / (2^31 - 2); from a valid state the draw lies in [0, 1) (also src/components/DappledLight/tree.ts:220-223) |
| AutoplayVideo.FindFrom | src/components/AutoplayVideo.tsx:10 | the position returned is the first occurrence at or after i; none is returned only when there is no occurrence |
| AutoplayVideo.UploadMatchAt | src/components/AutoplayVideo.tsx:13 | returns the end of the match of `\/video\/upload\/[^/]+\/` starting at p, and none when no match starts there |
| AutoplayVideo.FindUpload | src/components/AutoplayVideo.tsx:12-15 | returns the leftmost match of the upload pattern, and none when there is no match |
| AutoplayVideo.WordSuffixStart | src/components/AutoplayVideo.tsx:16 | returns the start of the maximal run of word characters that ends the prefix |
| AutoplayVideo.FindExtension | src/components/AutoplayVideo.tsx:16 | returns the dot of the one `\.\w+$` match, and none when the string does not end in an extension |
| AutoplayVideo.PosterNullIffNotCloudinary | src/components/AutoplayVideo.tsx:9-10 | the poster is null exactly when `res.cloudinary.com` occurs nowhere in the URL |
| AutoplayVideo.ReplaceUploadSpec | src/components/AutoplayVideo.tsx:11-15 | only the leftmost upload match is rewritten to the blur transformation, and the text around it is kept; a URL without a match is unchanged |
| AutoplayVideo.ReplaceExtensionSpec | src/components/AutoplayVideo.tsx:16 | an extension is replaced by `.jpg` with everything before the dot kept; a URL without one is unchanged |
| Skills.IntersectingIdsSnoc | src/components/SkillsSection/index.tsx:55-57 | dropping the last entry of a batch drops at most its id from the intersecting ids |
| Skills.AccumulateIsMinMax | src/components/SkillsSection/index.tsx:55-66 | after a batch the range is exactly the least and greatest of its old ends and the intersecting ids; it stays null only when nothing intersected |
| Skills.MarksInclusive | src/components/SkillsSection/index.tsx:43-47 | because ids start at 1, an element is marked exactly when its id lies in the inclusive range, and nothing is marked while an end is null (also line 122) |
| Skills.SkillsTracker.constructor | src/components/SkillsSection/index.tsx:32-33 | both ends start null, no timeout is pending, and no name is highlighted (also lines 122-123) |
| Skills.SkillsTracker.ReportIntersection | src/components/SkillsSection/index.tsx:53-69 | the range becomes the batch folded into it, the apply is moved to 25 ms after this batch, and no highlight changes |
| Skills.SkillsTracker.ApplyChanges | src/components/SkillsSection/index.tsx:38-51 | every element the range covers is marked, none is unmarked, and the range is reset |
| Skills.SkillsTracker.FireApply | src/components/SkillsSection/index.tsx:68 | the debounce timeout runs the apply and is then no longer pending |
| Skills.BatchThenApply | src/components/SkillsSection/index.tsx:38-69 | after a reset, one batch and its apply light exactly the names between the least and the greatest intersecting id, on top of those already on |
| Valentine.OverlapSymmetricEdgesApart | src/app/be-mine/ValentineForm.tsx:87-98 | for any rectangles the test is symmetric, and rectangles that only share an edge on any side do not overlap |
| Valentine.OverlapIffSharedInterior | src/app/be-mine/ValentineForm.tsx:87-98 | for rectangles of positive size the test holds exactly when some point lies strictly inside both |
| Valentine.ToTranslate | src/app/be-mine/ValentineForm.tsx:121-126 | the offset moves the recorded origin exactly onto the target; no offset before an origin is recorded |
| Valentine.Spread | src/app/be-mine/ValentineForm.tsx:139-157 | a random value in [0, 1) puts min + u (max - min) in [min, max] |
| Valentine.Scale | src/app/be-mine/ValentineForm.tsx:139 | u d lies in [0, d] for u in [0, 1) and d >= 0 |
| Valentine.SafeTargetFirstFit | src/app/be-mine/ValentineForm.tsx:138-158 | the safe target is the first of the 20 candidates that does not overlap the content, every earlier one overlapping, or the fallback when all 20 overlap |
| Valentine.CandidateInBounds | src/app/be-mine/ValentineForm.tsx:132-140 | with random values in [0, 1) and a viewport large enough for the button, every candidate lies 16 px or more inside each edge |
| Valentine.SafeTargetInBounds | src/app/be-mine/ValentineForm.tsx:129-159 | under the same conditions the safe target lies in the padded bounds |
| Valentine.GetSafeTarget | src/app/be-mine/ValentineForm.tsx:129-159 | the retry loop returns the safe target of the candidates drawn |
| Valentine.RawFleeAway | src/app/be-mine/ValentineForm.tsx:176-185 | the raw spot's centre lies on the ray from the cursor through the button's centre, 200 px beyond that centre |
| Valentine.FleeTargetSpec | src/app/be-mine/ValentineForm.tsx:180-214 | the button moves exactly when the cursor is closer than 150 px; it goes to the clamped spot unless that overlaps the content, else to the safe target; the clamped spot, and with random values in [0, 1) the result, lie in the padded bounds |
| Valentine.ValentineForm.constructor | src/app/be-mine/ValentineForm.tsx:101-110 | the form starts unaccepted, unsurrendered, with no taps, no origin and no offset |
| Valentine.ValentineForm.Mount | src/app/be-mine/ValentineForm.tsx:112-119 | the button's untransformed corner is recorded once, and only if the button exists |
| Valentine.ValentineForm.Accept | src/app/be-mine/ValentineForm.tsx:373 | "Yes" sets accepted and changes nothing else |
| Valentine.ValentineForm.Click | src/app/be-mine/ValentineForm.tsx:228-246 | a tap is ignored once surrendered; otherwise it is counted, the third surrenders without moving the button, and earlier ones move it to a safe target (also line 382) |
| Valentine.ValentineForm.MouseMove | src/app/be-mine/ValentineForm.tsx:161-226 | on a non-touch device before "Yes", with the button and its origin known, a cursor within 150 px moves the button to the flee target; otherwise nothing changes |
| Valentine.TapThrice | src/app/be-mine/ValentineForm.tsx:228-246 | from a fresh form the first two taps do not surrender and the third does, after exactly three taps |
| Tilt.EaseShrinks | src/hooks/useTilt.ts:69-70 | each easing step multiplies the gap to the target by 1 - f, so it shrinks whenever there is one, and the value stays between where it was and the target |
| Tilt.TickStepDone | src/hooks/useTilt.ts:64-87 | the loop stops exactly when the pointer has left and both eased angles lie inside the 0.01 dead zone, and then rests at (0, 0); otherwise both angles ease by 0.08 (pointer over the card) or 0.04 |
| Tilt.TickApproachesTarget | src/hooks/useTilt.ts:67-70 | while the loop runs on, every frame closes the gap to the target on each axis that has one |
| Tilt.DecayTowardRest | src/hooks/useTilt.ts:67-70 | after the pointer left, a frame that does not stop the loop scales both angles by 0.96 (also lines 128-131) |
| Tilt.TickStaysInRange | src/hooks/useTilt.ts:4 | easing toward a target within 6 degrees keeps the rotation within 6 degrees (also lines 69-70) |
| Tilt.MoveTargetInRange | src/hooks/useTilt.ts:133-140 | a pointer inside the card gives a target within 6 degrees; the top edge tilts by +6 about x and the right edge by +6 about y |
| Tilt.SheenInCard | src/hooks/useTilt.ts:11-14 | a rotation within 6 degrees keeps the sheen's centre within [20, 80] percent; the tilting sheen at rest equals the resting sheen of a centred camera (also lines 95-97) |
| Tilt.TiltHook.constructor | src/hooks/useTilt.ts:37-60 | the hook starts at rest, inactive, with no frame scheduled, no transform and the resting sheen |
| Tilt.TiltHook.StartLoop | src/hooks/useTilt.ts:62-63 | a frame is scheduled, and no second loop is started while one runs (also line 112) |
| Tilt.TiltHook.Frame | src/hooks/useTilt.ts:64-111 | the rotation becomes the eased one; the loop goes on exactly when not done; a finished loop clears the transform and restores the resting sheen, a running one writes the rotation and its sheen |
| Tilt.TiltHook.PointerEnter | src/hooks/useTilt.ts:122-126 | ignored in reduced motion; otherwise the card becomes active and the loop runs |
| Tilt.TiltHook.PointerLeave | src/hooks/useTilt.ts:128-131 | the card becomes inactive and aims back at rest |
| Tilt.TiltHook.PointerMove | src/hooks/useTilt.ts:133-140 | while active and not in reduced motion the target becomes the pointer's rotation; otherwise nothing changes |

## Left out

- Canvas, DOM and WebGL side effects are not modelled:
  - `fillText`, `clearRect`, `getImageData` and CSS strings;
  - three.js cylinders, matrices and quaternions;
  - `randomBranchDir`'s direction maths and the leaf texture.

  What they compute enters as inputs or parameters: the text mask, section rectangles, edge noise, leaf distances, cylinder geometries and tick elements.
- Scheduling is not modelled: `requestAnimationFrame`, `setTimeout`, `setInterval` and the observers. Timer and observer callbacks are methods that the caller invokes when they fire. Unmount cleanup (`cancelAnimationFrame`, `removeEventListener`, `disconnect`) is left out.
- Floating-point rounding is left out, including the Float32 and Uint32 storage of merged buffers. The exactness of the Park–Miller product below 2^53 is stated, not proved from IEEE arithmetic.
- Number formatting is left out: `toFixed` in the tape rotation, the sheen strings, and the label texts (kept as numbers).
- `toUpperCase` of the highlight text is left out. The text is passed already cased.
- The render-time resting-sheen refresh of the tilt hook (src/hooks/useTilt.ts:46-51) is not modelled. It recomputes the resting sheen on re-render while no loop runs.
- The Skills section's icon-reveal effect and its IntersectionObserver are left out. Only the range highlight is modelled.
- The YouTube player, heart rain and Yes-button repositioning of the Valentine page are left out.
- AsciiAmbient's spotlight visits its cells in index order. The source iterates a `Set` in insertion order. The cells touched and their new values are the same either way.
- AsciiAmbient's `hlMask` and `hlRevealThreshold` are kept together as one optional mask. A threshold left over after the mask is cleared is still read, but with no mask the mask value is 0, so it has no effect.
- AsciiAmbient's `updateLeaves` is modelled over a flat index rather than nested row and column loops.
- Typer ignores the `typeSpeed` option, as the source does: the typing delay is always 80 + 40 r.
- InTheWild.ScrollProgress: requires a non-zero scrollable distance. The source has no guard, and at zero it divides by zero, producing NaN or Infinity.
- HeroDappledZone.Ranged: requires start < end, which every call site meets.
- HeroDappledZone.Zone.HandleScroll: requires a positive window width and height. `getTargetInsets` divides by both.
- ProjectSection.FillFraction: requires n = waypoints - 1 > 0: one waypoint per project, and with a single project the source divides by zero. It states the bounds and the behaviour before and after the line, but not the linear value in between.
- LSystem.GenerateTree: counts level-0 segments and level-1 roots, but does not count leaves or deeper levels for the whole tree. The 2 or 3 children of each level-1 and level-2 branch are stated per branch by LSystem.Builder.GrowSubBranch.
- Tree.MergeGeometries: the merged buffers are sequences of reals. Float32 rounding and Uint32 wrap-around of indices are not modelled.
- Tilt.TiltHook.PointerMove: requires the pointer to lie inside the card's rectangle. That holds while the pointer is over the element's own box; a `pointermove` bubbling up from a descendant drawn outside that box is not covered, and no call site of the hook is part of this model.
- Tilt.TiltHook.constructor: the sheen starts as the resting sheen even in reduced motion. There the source never writes it.
- Valentine.OverlapIffSharedInterior: the shared-interior reading is stated for rectangles of positive size only.
- AsciiAmbient.AsciiField.BrightenNearMouse: takes the pointer distances as inputs, tied to the squared offsets.
- AsciiAmbient.AsciiField.Tick, AsciiAmbient.AsciiField.FinishTick and AsciiAmbient.AsciiField.MergeLight: require the highlight intensity in [0, 1], the range src/types/highlight.ts:3 documents.
- ScrollToTop, the theme toggle, the data tables and the markup components are outside the modelled core.
