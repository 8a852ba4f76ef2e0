# Mondrian generator: the partition and colour rules

This project models the part of `MondrianGenerator.java` that does real work.
A Swing program paints a random "Mondrian" composition. To do so,
`createRectangles` partitions a `width x height` canvas into rectangles, and
the paint loop gives each rectangle a colour drawn from a weighted if-chain.

The partition works in three steps:

1. It starts from one canvas rectangle.
2. It makes two full-span splits. The first is horizontal. The second is
   vertical, applied to both halves with the same ratio, so the two split
   lines cross the whole canvas.
3. It runs a bulk pass over the growing list. Each entry may be split again,
   horizontally or vertically.

The model keeps the program's reference semantics:

- `Rectangle` is a Dafny class with the four mutable fields.
- The list is a `seq<Rectangle>` of references.
- `splitHorTop` and `splitVerLeft` mutate the rectangle they are given.
  Re-inserting that same rectangle leaves one object at two positions.
  Seven list entries after the initial splits therefore denote only four
  panes.

`Mondrian.Layout` maps every distinct object in a list to its current bounds.
All geometric statements are about that map.

Files:

- `Rounding.dfy`: the split ratio `size` is a rational `num/den`. Java's
  `Math.round` (floor of `v + 1/2`) is computed exactly on it, so the cut
  `Cut(h, s) = Math.round(h * (1 - size))` is an integer with
  `0 <= Cut <= h`. No IEEE rounding is involved.
- `Geometry.dfy`: boxes and the two halves of a split. It also defines exact
  tiling of the canvas, pixel by pixel, and the "cross" property: the first
  horizontal line and the vertical line pass through no pane. It also states
  the junction rule of the composition: pane edges never end in open space
  and never meet in a naked L-corner.
- `Mondrian.dfy`: the `Rectangle` class, the four split primitives, the two
  list splices, and `createRectangles` in two parts.
  `InitialCross` covers lines 52-61. `BulkPass` covers the loop at 64-75.
  Each iteration that still has a draw calls `VisitEntry`; an iteration past
  the end of the draws does nothing.
- `Palette.dfy`: the colour if-chain of `paintComponent`.

`Math.random` is replaced by parameters:

- `createRectangles` receives the two ratios of the initial splits.
- It also receives a finite sequence of `Draw`s. Draw `i` serves bulk-pass
  iteration `i + 1`, and the sequence may be shorter than the pass. A `Draw`
  holds that iteration's ratio, the roll that decides whether to split, and
  the roll that decides the orientation.
- An iteration past the end of the draws does not split. The length of the
  draw sequence gives the termination measure of a loop whose bound
  `rs.size()` grows while it runs.

The bottom (right) part of a split gets height (width) `h - Cut(h, s)`. The
source rounds that part on its own, which can make the two halves one pixel
longer than the original (see Findings). The model uses the intended
definition throughout, and models the as-written part separately.

## Model

| member | source | states |
|---|---|---|
| Rounding.Cut | MondrianGenerator.java:90 | `Math.round(h * (1 - size))`, the top height and left width of lines 90 and 103; its meaning is stated by CutBounds and CutLeavesBothParts |
| Rounding.SourceRest | MondrianGenerator.java:84 | `Math.round(h * size)`, the bottom height and right width as lines 84 and 97 compute them; SourceHalvesOverhang states how it relates to Cut |
| Rounding.Round | MondrianGenerator.java:83-84 | `Math.round(p / q)` for `q > 0` is the integer `r` with `r - 1/2 <= p/q < r + 1/2`: nearest integer, ties rounded up |
| Rounding.CutBounds | MondrianGenerator.java:90 | for a side `h >= 0` and `0 <= size <= 1`, the rounded top (left) share `Math.round(h * (1 - size))` lies in `0..h` |
| Rounding.CutLeavesBothParts | MondrianGenerator.java:117-120 | a ratio in getRandom's range `[0.1, 0.1 + 2/3)` is a valid ratio, and it cuts any side of at least 6 into two non-empty parts |
| Rounding.CutMayCollapse | MondrianGenerator.java:117-120 | the bound 6 is tight: a side of 5 cut at `size = 0.1` keeps the whole side in the top part |
| Rounding.SourceHalvesOverhang | MondrianGenerator.java:83-84 | the two independently rounded parts sum to `h` or `h + 1`, and to `h + 1` exactly when `h * (1 - size)` ends in exactly one half |
| Rounding.SourceOverhangAt750 | MondrianGenerator.java:83-84 | on a 750-pixel side with `size = 1/4` (a value in getRandom's range), the parts are 563 and 188 |
| Geometry.HorSplit | MondrianGenerator.java:82-84 | the horizontal halves keep `x` and `width`; the top spans `[y, y+c)` and the bottom `[y+c, y+h)`; their areas sum to the original; every pixel of the original lies in exactly one half, and no other pixel does |
| Geometry.VerSplit | MondrianGenerator.java:95-97 | the mirror of HorSplit: the halves keep `y` and `height`, share the edge `x + c`, sum in area and partition the original |
| Geometry.CanvasTiles | MondrianGenerator.java:53 | the single canvas rectangle tiles the canvas |
| Geometry.SplitPreservesTiling | MondrianGenerator.java:107-115 | replacing one pane by the two parts of a partition, the second part under a new key, keeps an exact tiling of the canvas |
| Geometry.SplitPreservesCross | MondrianGenerator.java:107-115 | splitting a pane into two parts inside it keeps every pane non-negative and keeps the two cross lines clear |
| Geometry.CrossTiles | MondrianGenerator.java:56-61 | the four panes of the initial cross (canvas cut at `cy`, both halves cut at the same `cx`) tile the canvas and leave both lines clear |
| Geometry.SourceHorBottom | MondrianGenerator.java:82-85 | the bottom part as written, its height rounded on its own; SourceBottomLeavesCanvas shows it leaving the canvas |
| Geometry.SourceVerRight | MondrianGenerator.java:95-98 | the right part as written; SourceRightLeavesCanvas shows it leaving the canvas |
| Geometry.SplitPreservesRefines | MondrianGenerator.java:107-115 | replacing a pane by two parts inside its box keeps every pane inside some pane of a fixed earlier layout |
| Geometry.JunctionAt | MondrianGenerator.java:14 | in an exact tiling, at every lattice point strictly inside the canvas the pane edges form nothing, a straight line, a T-junction or a crossing: no line ends there and no two perpendicular edges meet alone |
| Geometry.NoNakedCorners | MondrianGenerator.java:14 | the junction rule at every interior lattice point of an exact tiling |
| Geometry.SourceBottomLeavesCanvas | MondrianGenerator.java:82-85 | as written, the first horizontal split of the 750 x 750 canvas at `size = 1/4` gives a bottom part `(0, 563, 750, 188)` that covers row 750, outside the canvas, so the halves do not partition the canvas |
| Geometry.SourceRightLeavesCanvas | MondrianGenerator.java:95-98 | the same for the right part of a vertical split: `(563, 0, 188, 750)` covers column 750 |
| Mondrian.Rectangle.constructor | MondrianGenerator.java:53 | a new rectangle has exactly the given position and size |
| Mondrian.SplitHorBottom | MondrianGenerator.java:80-86 | returns a fresh rectangle, the bottom half of the input (same `x`, `width`, `y + c`, `h - c`); it modifies nothing, so the input is unchanged |
| Mondrian.SplitHorTop | MondrianGenerator.java:88-92 | returns the very same object; only that object changes, and only its height, which becomes the cut |
| Mondrian.SplitVerRight | MondrianGenerator.java:94-99 | returns a fresh rectangle, the right half (same `y`, `height`, `x + c`, `w - c`); the input is unchanged |
| Mondrian.SplitVerLeft | MondrianGenerator.java:101-105 | returns the very same object, whose width alone becomes the cut |
| Mondrian.SplitRectangleHor | MondrianGenerator.java:107-110 | the list grows by 2; entries `0..index` stay; the split object also sits at `index + 1`; later entries move up by one; the fresh bottom part is last; only `rs[index]` is modified; the pane map gains the bottom part and the original's box becomes the top part, every other pane unchanged |
| Mondrian.SplitRectangleVer | MondrianGenerator.java:112-115 | the mirror of SplitRectangleHor, with the left part kept and the right part appended |
| Mondrian.InitialCross | MondrianGenerator.java:52-61 | the list has 7 entries: top-left three times, bottom-left twice, then top-right and bottom-right, four distinct fresh objects, with bounds `(0,0,cx,cy)`, `(0,cy,cx,h-cy)`, `(cx,0,w-cx,cy)` and `(cx,cy,w-cx,h-cy)`; the two left panes share the width `cx` because both vertical splits reuse one ratio |
| Mondrian.InitialLayout | MondrianGenerator.java:58-61 | those 7 entries hold exactly 4 distinct panes, which tile the canvas and leave the line `y = cy` and the line `x = cx` clear |
| Mondrian.ContinuesPrefix | MondrianGenerator.java:64 | if the pass ran through its first `n` iterations, then iteration `i`, for each `i` up to `n`, found an entry at index `i` |
| Mondrian.PassStopsUnique | MondrianGenerator.java:64 | the draws determine the length at which the pass stops: two lengths that both meet the stopping condition are equal |
| Mondrian.SplitCountBound | MondrianGenerator.java:64-75 | among the first `n` iterations, at most `n` splits occur, and at most one per draw |
| Mondrian.VisitEntry | MondrianGenerator.java:65-74 | without a split roll the list and entry `j` are unchanged; with one, the list grows by 2 with entries `0..j` kept, the same object again at `j + 1`, the later entries moved up by one and a fresh last entry; a horizontal roll turns pane `rs[j]` into its top part at `Cut(height, size)` and the new pane holds the bottom part, a vertical roll the same with left and right at `Cut(width, size)`; every other pane keeps its box; the tiling, non-negative panes, clear cross lines and the refinement of a fixed earlier layout all survive |
| Mondrian.BulkPass | MondrianGenerator.java:64-75 | the loop stops at the first iteration count `n - 1` for which index `n` does not exist, so entries appended during the pass are visited too; the length `n` is the initial length plus 2 per split among those iterations; the number of panes grows by 1 per split; entry 0 keeps its object; the tiling and the cross survive, and every resulting pane lies inside a pane of the input |
| Mondrian.CreateRectangles | MondrianGenerator.java:49-78 | the result has `7 + 2k` entries, where `k` is the number of splits the pass made, and that length is where the pass stops for these draws; its `4 + k` distinct rectangles tile the canvas exactly, are non-negative, leave the first horizontal line and the vertical line clear from edge to edge, and meet only in straight lines, T-junctions and crossings (line 14); entries 0, 1 and 2 are one object; at most `7 + 2 * |draws|` entries |
| Palette.PaneColour | MondrianGenerator.java:192-203 | the if-chain from the roll to a colour; ColourChoice states which rolls give which colour |
| Palette.ColourChoice | MondrianGenerator.java:192-203 | over the rolls 1..10, roll 1 gives black, 2 red, 3 yellow, 4 blue and 5..10 white; each non-white colour has exactly one roll and white has six |

## Left out

- Swing and the event loop (lines 125-176: `main`, the frame, the button listener, `getPreferredSize`) are UI plumbing with no logic to state.
- The `Graphics2D` calls (lines 180, 204-207, 211-214) draw to a rendering sink outside the program. The same goes for the border `fillRect`s, which use `canvasWidth` as the height of the side strips at lines 213-214. That difference shows only on a non-square canvas.
- The paint loop over the list (lines 190-208) is not a separate member. It only pairs each entry with one independent colour roll (`Palette.PaneColour`) and draws it. Because of the aliasing, a pane that sits at several positions is filled several times, and the last roll wins.
- Floating point: the ratio from `getRandom` (line 118) and the four `Math.round` calls are modelled on exact rationals, so IEEE rounding of `h * (1 - size)` is not modelled. `FromGetRandom` states getRandom's range as a condition on the rational.
- `Math.random` (lines 67, 69, 118, 192) is replaced by the parameters `s1`, `s2`, `draws` and the colour roll. Once the finite draw sequence runs out, an iteration does not split. The source's loop ends only with probability 1.
- Mondrian.BulkPass: "index 0 is never split" is stated as "entry 0 keeps its object". The entries at 1 and 2 are the same object as entry 0, so the split at `j = 1` does change the pane that entry 0 refers to, as it does in the source.
- Java `int` overflow and the `(int)` cast of Math.round's `long` are not modelled. Coordinates are unbounded integers, and on the 750 x 750 canvas no value comes near the limits.
- An out-of-range `index` in `splitRectangleHor`/`splitRectangleVer`, which throws in Java, is excluded by a precondition. Every call site in `createRectangles` passes a valid index.
- A negative canvas size is excluded by a precondition. The only caller passes the static 750 x 750 canvas (line 47), which is a parameter here.
- Geometry.Junction is stated on the pixel boundaries between panes. A pane of zero width or height covers no pixel, so the outline Graphics2D would draw for it is not covered by the junction rule. Such panes arise only for sides shorter than 6 pixels (Rounding.CutLeavesBothParts).
- Mondrian.BulkPass: the contract gives the counts, the stopping point, the preserved tiling and the refinement of the input panes, but not the final list entry by entry. Which split each iteration makes is stated per iteration by Mondrian.VisitEntry.
- Palette.Rgb holds the colour constants of lines 183-187 as data and has no contract.
- The returned bottom (right) part uses height (width) `h - cut` instead of the source's separately rounded `Math.round(h * size)`. See Findings. The as-written formula is `Geometry.SourceHorBottom` / `Geometry.SourceVerRight`.

## Findings

| source | as written | input that shows it | evidently intended | confidence | as-written member | corrected member |
|---|---|---|---|---|---|---|
| MondrianGenerator.java:84 | the bottom part gets height `Math.round(h * size)`, rounded independently of the top's `Math.round(h * (1 - size))` | canvas 750 x 750, first ratio `size = 0.25`: top height 563 (562.5 rounded up), bottom from y = 563 with height 188 (187.5 rounded up), so it reaches row 750, one row below the canvas | the bottom takes what the top leaves: `h - Math.round(h * (1 - size))`, so the halves partition the original | low: needs `h * size` to end in exactly .5 in double arithmetic; not executed | Geometry.SourceBottomLeavesCanvas | Geometry.HorSplit |
| MondrianGenerator.java:97 | the right part gets width `Math.round(w * size)`, rounded independently of the left part | canvas 750 x 750, second ratio `size = 0.25`: left width 563, right part from x = 563 with width 188, which covers column 750 | the right part takes `w - Math.round(w * (1 - size))` | low: same condition; not executed | Geometry.SourceRightLeavesCanvas | Geometry.VerSplit |
