# LuckyPan — a verified model of the nine-cell lucky wheel

LuckyPan is an Android view that draws a 3 x 3 "nine-grid": eight ring cells
numbered 1 to 8 clockwise from the top-left corner, and a centre "Go" cell.
Pressing and releasing inside "Go" starts a spin: a random lucky number in
`[0, 8)` is drawn and an integer animator runs from the current start cell
up to the value `3 * 8 + luck` (17 to 31 steps, so more than two full laps),
ending on the lucky cell, highlighting `value % 8` on every frame. When the animation ends, the lucky cell becomes the start of the next
spin.

This project models the view's logic in Dafny:

- `JavaInt` — Java's truncating `/` and `%`, and `Math.min`.
- `Grid` — the cell rectangles, `RectF.contains`, the cell size
  `min(w, h) / 3`, the nine-cell layout in its storage order, and lemmas
  about its geometry.
- `Styling` — the fill colour and the label of each cell, and the decimal
  numeral produced by `"" + n`.
- `Spin` — the lap count, the animator's end value, the highlighted cell of
  an animated value, and what an animator run delivers.
- `LuckyPanView` — the class `LuckyPan`. Its fields are the ones the Java
  class updates: the rectangle list, the cell size, the lucky number, the
  highlighted position, the start position, the "Go" press flag and the paint
  colour. It has one method per handler: size change, spin start, frame,
  animation end, touch and draw.

The random draw and the animator are inputs. `luck` is a parameter with
`0 <= luck < 8`. An animator run is a sequence of integer values between
its two ends whose last value is the end value (`Spin.IsAnimation`), followed
by one completion call.

The model follows the code as written:

- The end value of a spin is `3 * 8 + luck`. It does not add the start
  position, so a spin can complete fewer than three full laps: from cell 7
  with `luck == 0` it runs from 7 to 24, which is 17 steps.
- Starting a spin while one is running is not a no-op: no guard exists, so
  a confirmed tap calls the spin start again.
- The view keeps no "spinning" state.
- The right-hand cell of the middle row and the bottom row are placed from
  the view's width, while the other cells are placed from the left edge.
  So the ring has a gap whenever the width is not exactly three cells,
  that is, when the view is wider than it is tall or its width is not a
  multiple of 3 (`Grid.RingClosesIffSquare`).

Modelling assumptions:

- `RectF.contains(x, y)` is taken to be the half-open, non-empty test
  `left < right && top < bottom && left <= x < right && top <= y < bottom`.
- `getWidth()` inside the layout code is the width that the size-change
  handler received.
- Touch coordinates are `real`. Rectangle coordinates are the `int` values
  the layout computes.

## Model

| member | source | states |
|---|---|---|
| `JavaInt.Div` | app/src/main/java/com/practice/luckypan/LuckyPan.java:60 | Java `/` truncates toward zero: for a non-negative dividend `q*b <= a < q*b + b`, for a negative one `q*b - b < a <= q*b` |
| `JavaInt.Rem` | app/src/main/java/com/practice/luckypan/LuckyPan.java:164 | Java `%`: `Div(a,b)*b + r == a`, and `r` has the sign of `a` with `|r| < b` |
| `JavaInt.Min` | app/src/main/java/com/practice/luckypan/LuckyPan.java:60 | `Math.min`: a lower bound of both arguments and equal to one of them |
| `Grid.Contains` | app/src/main/java/com/practice/luckypan/LuckyPan.java:182 | the touch test accepts a point only for a rectangle of positive width and height, with left and top edges inside and right and bottom edges outside |
| `Grid.Size` | app/src/main/java/com/practice/luckypan/LuckyPan.java:60 | for non-negative sizes the cell side is `min(w,h)` divided by 3 and rounded down (`3s <= min < 3s+3`), and it is 0 when `min(w,h) < 3` |
| `Grid.Layout` | app/src/main/java/com/practice/luckypan/LuckyPan.java:68-97 | the layout always holds exactly nine rectangles, whatever the size (zero-size ones included) |
| `Grid.CellsAreSquares` | app/src/main/java/com/practice/luckypan/LuckyPan.java:70-96 | every one of the nine cells is `Size(w,h)` wide and `Size(w,h)` high |
| `Grid.RingIsNineGrid` | app/src/main/java/com/practice/luckypan/LuckyPan.java:68-97 | when `w == 3s`, all nine cells are pairwise disjoint, and each ring cell shares an edge with the next one, 7 with 0 included |
| `Grid.DisjointHaveNoCommonPoint` | app/src/main/java/com/practice/luckypan/LuckyPan.java:182 | no point is contained in two disjoint rectangles |
| `Grid.CellAt` | app/src/main/java/com/practice/luckypan/LuckyPan.java:68-97 | when `w == 3s`, every point of the `3s x 3s` square is in exactly one cell, and the lemma returns that cell |
| `Grid.CentreContains` | app/src/main/java/com/practice/luckypan/LuckyPan.java:96 | a point is in the "Go" cell iff `s > 0` and the point lies in `[s,2s) x [s,2s)`; so when `s == 0` no point is |
| `Grid.RingClosesIffSquare` | app/src/main/java/com/practice/luckypan/LuckyPan.java:80-93 | the right-hand middle cell always sits on the bottom row; with `s > 0`, it meets the top row and the bottom row meets the left column exactly when `w == 3s` |
| `Grid.Layout300` | app/src/main/java/com/practice/luckypan/LuckyPan.java:58-97 | a 300 x 300 view has `s == 100`, cell 0 at (0,0)-(100,100), cell 3 at (200,100)-(300,200), cell 6 at (0,200)-(100,300) and the centre at (100,100)-(200,200) |
| `Styling.ItemColor` | app/src/main/java/com/practice/luckypan/LuckyPan.java:27 | `itemColor` is green at index 0 and red at index 1 |
| `Styling.Fill` | app/src/main/java/com/practice/luckypan/LuckyPan.java:113-123 | a cell is blue iff it is the highlighted ring cell; it is white iff it is the centre; any other ring cell takes `itemColor[i % 2]` |
| `Styling.NeighboursDiffer` | app/src/main/java/com/practice/luckypan/LuckyPan.java:119 | two ring cells next to each other, 7 and 0 included, get different colours when neither is highlighted |
| `Styling.HighlightIsUnique` | app/src/main/java/com/practice/luckypan/LuckyPan.java:120-122 | two blue cells are the same cell and equal `position`, which is a ring index; with `position == -1` no cell is blue |
| `Styling.Numeral` | app/src/main/java/com/practice/luckypan/LuckyPan.java:141 | `"" + n` gives a non-empty string of decimal digits with no leading zero |
| `Styling.NumeralRoundTrip` | app/src/main/java/com/practice/luckypan/LuckyPan.java:141 | reading the numeral back gives `n` |
| `Styling.Label` | app/src/main/java/com/practice/luckypan/LuckyPan.java:134-141 | the centre cell is labelled "Go"; ring cell `i` is labelled with one decimal digit that reads as `i + 1` |
| `Styling.LabelsDistinct` | app/src/main/java/com/practice/luckypan/LuckyPan.java:134-141 | the nine labels are distinct, and ring cell `i` is labelled with the single digit `i + 1` |
| `Spin.Highlight` | app/src/main/java/com/practice/luckypan/LuckyPan.java:163-164 | every non-negative animated value highlights a ring index in `[0,8)`, never the centre cell, and differs from the value by whole laps |
| `Spin.Target` | app/src/main/java/com/practice/luckypan/LuckyPan.java:158-159 | the end value `3*8 + luck` lies in `[24, 32)` and highlights `luck` |
| `Spin.SpinMovesForward` | app/src/main/java/com/practice/luckypan/LuckyPan.java:159 | from any start cell in `[0,8)`, the end value is past the start by more than two full laps |
| `Spin.AnimationHighlights` | app/src/main/java/com/practice/luckypan/LuckyPan.java:159-165 | every value of a run from a ring index to `Target(luck)` highlights a ring cell, and the last value highlights `luck` |
| `LuckyPanView.LuckyPan.constructor` | app/src/main/java/com/practice/luckypan/LuckyPan.java:29-33 | a new view has no layout, `position == -1`, `startPosition == 0`, `luckNum == 0` and the flag is clear |
| `LuckyPanView.LuckyPan.OnSizeChanged` | app/src/main/java/com/practice/luckypan/LuckyPan.java:58-63 | after a size change the list is `Layout(w,h)`, so it depends only on `(w,h)` and a repeated size gives the same rectangles; the spin and touch fields are unchanged |
| `LuckyPanView.LuckyPan.InitRect` | app/src/main/java/com/practice/luckypan/LuckyPan.java:68-97 | the two loops and the three single appends (cells 3, 7 and 8), as written, build exactly `Layout(width, height)` from the empty list |
| `LuckyPanView.LuckyPan.SetPosition` | app/src/main/java/com/practice/luckypan/LuckyPan.java:147-150 | the highlighted cell becomes the given one |
| `LuckyPanView.LuckyPan.StartAnimation` | app/src/main/java/com/practice/luckypan/LuckyPan.java:156-159 | the lucky number is recorded, and the animator is asked to run from `startPosition` to `Target(luck)`, with start before end |
| `LuckyPanView.LuckyPan.OnAnimationUpdate` | app/src/main/java/com/practice/luckypan/LuckyPan.java:160-166 | a frame value `v` sets `position` to `v % 8`, which is a ring index when `v >= 0` |
| `LuckyPanView.LuckyPan.OnAnimationEnd` | app/src/main/java/com/practice/luckypan/LuckyPan.java:167-172 | on completion `startPosition` becomes the lucky number, so it stays in `[0,8)` |
| `LuckyPanView.LuckyPan.RunSpin` | app/src/main/java/com/practice/luckypan/LuckyPan.java:156-174 | over one whole spin, every frame highlights `frames[k] % 8` in `[0,8)`; afterwards `position == startPosition == luckNum == luck`, so the next spin starts where this one stopped; layout, flag and paint are unchanged |
| `LuckyPanView.LuckyPan.OnTouchEvent` | app/src/main/java/com/practice/luckypan/LuckyPan.java:180-199 | a press sets the flag to "inside the Go cell" and is consumed; a spin is requested iff the action is a release, the flag was set and the release is in the Go cell; after a release the flag is clear; no other field changes |
| `LuckyPanView.LuckyPan.Tap` | app/src/main/java/com/practice/luckypan/LuckyPan.java:181-197 | a press followed by a release starts a spin iff both points are in the Go cell, so a press outside or a release outside never starts one; `luckNum` becomes `luck` exactly when a spin starts, and size, position, start position and paint are unchanged |
| `LuckyPanView.LuckyPan.OnDraw` | app/src/main/java/com/practice/luckypan/LuckyPan.java:100-145 | each cell is filled with `Fill(i, position)` and labelled `Label(i)`; ring labels come out white, the colour the paint was left with by the centre cell, and "Go" is red |

## Left out

- Canvas and `Paint` calls, the text sizes and the float text offsets: they only render. The model keeps the fill colour, the label and the paint colour of each cell.
- `invalidate()`: a redraw request to the platform.
- `ValueAnimator`'s timing, its interpolator and the 6000 ms duration. A run is the sequence of values it delivers, each between the two ends and ending at the end value. Values are not required to increase.
- `java.util.Random`: the lucky number is a parameter in `[0,8)`. That the draw is uniform is a statistical property and is not stated.
- Two animations at once, after "Go" is tapped again during a spin: their callbacks interleave asynchronously. `OnTouchEvent` records the second spin start (a new `luckNum` and a new request), and `RunSpin` models one spin that runs to its end without interruption.
- `MotionEvent` dispatch, and the value `super.onTouchEvent` returns for a release or any other action. `consumed == false` means the event goes to the base view.
- A press before the first layout throws, because it reads `reactFs.get(8)`. A release with the flag clear, or any other action, does not read the list. Every gesture starts with a press, so `OnTouchEvent` and `Tap` require the nine-cell layout.
- 32-bit overflow and the integer-to-`float` conversion of the coordinates: both are exact for any real screen size (below 2^24 pixels).
- The constructors' paint set-up (anti-aliasing, stroke width, fill style) and the unused `AudioAttributes` import: no logic.
