# Clear-the-points game: a Dafny model

This project models the game logic of a small "clear the points" web game.
Numbered circles are scattered over a board, and the player must click them in
order 1, 2, 3, …. A wrong click ends the game. Clicking every circle in order
clears it.

The project has five modules:

- `GameUtils` (`game_utils.dfy`) models `src/utils/gameUtils.js`.
  - `GenerateCircles` is circle generation. It does rejection sampling against a flat spatial grid of cells, with a bounded number of checked attempts and one unchecked fallback.
  - `CheckCollision` is the 3x3 neighbourhood scan. It is proved to answer exactly the brute-force question "is some placed in-grid circle closer than `minDistance`?".
  - `GetVisibleCircles` is viewport culling: an order-preserving filter.
- `GameBoard` (`game_board.dfy`) models `src/components/GameBoard.jsx`: the board-size step function, the viewport rectangle, and the rendered (culled) circles.
- `NumberSequenceGame` (`number_sequence_game.dfy`) models `src/components/NumberSequenceGame.js`.
  - The component's state is the class `Game`; each handler and timer callback is one method.
  - Its invariant `Valid()` says:
    - the point count lies in [1, 5000];
    - the circles are numbered 1..n, and exactly those below `nextNumber` are clicked, with 1 <= `nextNumber` <= n + 1;
    - while playing, there are exactly `points` circles and some circle is still unclicked;
    - a cleared game has clicked them all;
    - the interval runs only while a game is playing or loading.
  - Every method preserves `Valid()`.
- `BasicGame` (`basic_game.dfy`) models `src/Game.js`, the ten-point variant. Its invariant `Countdown` says the remaining points are exactly `next, next+1, …, 10`, in order.
- `Optional` (`optional.dfy`) is an `Option` datatype.

Conventions of the model:

- `Math.random()` is a caller-supplied stream `random: nat -> Sample`; `random(k)` is the k-th call.
- Coordinates are exact `real`s.
- `Math.sqrt(d) < m` is the squared comparison `d < m * m`.
- `Date.now()` is a parameter `now` in milliseconds.
- The 0.1-second interval is an integer tick count, plus a flag recording whether the interval is set.

## Model

| member | source | states |
|---|---|---|
| GameUtils.CeilDiv | src/utils/gameUtils.js:12-13 | `Math.ceil(n / d)` is the fewest cells of width d covering n: `n <= q*d` and `(q-1)*d < n` |
| GameUtils.LayoutFor | src/utils/gameUtils.js:6-13 | radius is 12 when count > 100, else 20; minDistance = 2*radius + 5 = cellSize; maxAttempts is 10 when count > 1000, else 30 (line 56); the grid is the smallest that covers the board |
| GameUtils.FlatIndex | src/utils/gameUtils.js:89-90 | for in-range cell coordinates, `gridY*gridWidth + gridX` is strictly below `gridWidth*gridHeight` |
| GameUtils.CellOf | src/utils/gameUtils.js:87-90 | the cell of an in-grid position is a valid index into the flat grid |
| GameUtils.OnBoardInGrid | src/utils/gameUtils.js:87-89 | a centre within the padded board always has its cell inside the grid, so the range guard never drops it |
| GameUtils.CollidesSound | src/utils/gameUtils.js:24-51 | when the 3x3 scan reports a collision, some placed, in-grid circle really is closer than minDistance |
| GameUtils.CollidesComplete | src/utils/gameUtils.js:24-51 | every placed in-grid circle closer than minDistance is found by the 3x3 scan, because a cell is minDistance wide |
| GameUtils.CollidesExactly | src/utils/gameUtils.js:24-51 | under the grid invariant, the 3x3 scan holds iff some placed in-grid circle is closer than minDistance |
| GameUtils.CheckCollision | src/utils/gameUtils.js:24-51 | the nested dy/dx/cell loops, which skip out-of-range cells and stop at the first hit, return exactly the 3x3-scan predicate `Collides` |
| GameUtils.CandidateBounds | src/utils/gameUtils.js:59-60 | on a side of at least 2*(radius+padding), a candidate lies in [radius+padding, side-radius-padding], and below the upper end when the side is larger |
| GameUtils.GeneratePosition | src/utils/gameUtils.js:55-72 | it always returns the candidate of some attempt t <= maxAttempts, after exactly 2*(t+1) draws; every attempt before t was rejected by the collision check; t < maxAttempts (accepted) exactly when the returned candidate passed the check, and otherwise it is the unchecked fallback of lines 69-70, taken only after all maxAttempts checked candidates collided |
| GameUtils.GridInvPush | src/utils/gameUtils.js:86-91 | pushing the new circle's index into its own cell keeps the grid invariant: stored indices are placed circles in that cell, and every in-grid circle is stored |
| GameUtils.GridInvSkip | src/utils/gameUtils.js:86-91 | a circle whose cell is out of range is not stored, and the grid invariant still holds |
| GameUtils.RejectedExactly | src/utils/gameUtils.js:58-65 | under the grid invariant, every attempt the grid check rejected really lies too close to a placed in-grid circle |
| GameUtils.SampledStep | src/utils/gameUtils.js:75-84 | appending the circle of attempt t, taken from the next unused draw after t rejected attempts, extends the draw history of the circles placed so far |
| GameUtils.PlaceCircle | src/utils/gameUtils.js:75-91 | one loop iteration places circle number n+1 and keeps the grid invariant, the spacing of accepted circles, the draw history and the on-board property; it uses at most 2*(maxAttempts+1) draws |
| GameUtils.SpacedStep | src/utils/gameUtils.js:58-64 | appending a circle whose position passed the check keeps every accepted circle at least minDistance from every earlier in-grid circle |
| GameUtils.GenerateCircles | src/utils/gameUtils.js:3-95 | returns max(count, 0) circles; circle i has id = number = i and is unclicked; circle i is the candidate of attempt tries[i] of draws taken right after circle i-1's, every earlier attempt lay too close to one of circles 1..i-1, and it was accepted exactly when tries[i] < maxAttempts; accepted circles keep minDistance from earlier in-grid circles; on a board with room every circle is on the padded board and in the grid; at most 2*(maxAttempts+1) draws per circle |
| GameUtils.GetVisibleCircles | src/utils/gameUtils.js:100-106 | a circle is kept iff it is in the input and satisfies the four inclusive padded-viewport inequalities; padding defaults to 100 |
| GameUtils.VisibleIsSubsequence | src/utils/gameUtils.js:101-106 | the visible circles are an order-preserving subsequence of the input |
| GameUtils.VisibleAppend | src/utils/gameUtils.js:101-106 | culling a concatenation is the concatenation of the culled parts |
| GameUtils.VisibleIdempotent | src/utils/gameUtils.js:101-106 | culling twice with the same viewport equals culling once |
| GameUtils.VisibleEdgeExample | src/utils/gameUtils.js:102-103 | the padding edge is inclusive: x = right + 100 is kept and x = right + 101 is dropped |
| GameBoard.GetBoardDimensions | src/components/GameBoard.jsx:52-62 | the board is square; its side is 600 for count <= 100, 900 for 101..500, 1200 for 501..1000, 1500 for 1001..2000 and 1800 above 2000 |
| GameBoard.BoardMonotone | src/components/GameBoard.jsx:57-61 | more circles never give a smaller board |
| GameBoard.BoardHasRoom | src/components/GameBoard.jsx:52-62 | every board size has room for a circle plus padding for any count, so each candidate lies strictly inside the padded board |
| GameBoard.ViewportOf | src/components/GameBoard.jsx:24-29 | top/left are the scroll offsets; bottom - top and right - left are the client sizes; non-negative sizes give ordered bounds |
| GameBoard.RenderedCircles | src/components/GameBoard.jsx:45-49 | the rendered circles are an order-preserving subsequence, hence a subset, of the circles |
| GameBoard.InitialRendered | src/components/GameBoard.jsx:8-13 | with the initial all-zero viewport, exactly the circles within 100 pixels of the origin on both axes are rendered |
| GameBoard.CentreInViewRendered | src/components/GameBoard.jsx:45-49 | a circle within 100 pixels of the viewport is rendered |
| NumberSequenceGame.ClampPoints | src/components/NumberSequenceGame.js:137-140 | the count is in [1, 5000]; in-range input is kept; NaN and values below 1 give 1; values above 5000 give 5000 |
| NumberSequenceGame.ClampIdempotent | src/components/NumberSequenceGame.js:138-139 | clamping a clamped count changes nothing |
| NumberSequenceGame.FindById | src/components/NumberSequenceGame.js:58-59 | finds a circle of the game with that id, or reports that none has it |
| NumberSequenceGame.FindByIdInOrder | src/components/NumberSequenceGame.js:58-59 | in a numbered game, the circle with id i is the one at index i-1, and ids outside 1..n find nothing |
| NumberSequenceGame.FindNext | src/components/NumberSequenceGame.js:102 | finds an unclicked circle numbered n, or reports that every circle numbered n is clicked |
| NumberSequenceGame.FindNextInOrder | src/components/NumberSequenceGame.js:101-104 | in a valid game the auto-play lookup always finds circle `nextNumber` |
| NumberSequenceGame.MarkClicked | src/components/NumberSequenceGame.js:63-67 | same length; the circle with the id becomes clicked; every other circle is unchanged in place |
| NumberSequenceGame.MarkClickedAdvances | src/components/NumberSequenceGame.js:61-69 | marking the expected circle keeps the numbering and extends the clicked prefix by exactly one |
| NumberSequenceGame.ReapFading | src/components/NumberSequenceGame.js:119-121 | keeps exactly the entries with now - clickTime < 3000, every occurrence of each, as an order-preserving subsequence |
| NumberSequenceGame.ReapLater | src/components/NumberSequenceGame.js:115-122 | reaping at one time and then at a later time equals reaping once at the later time |
| NumberSequenceGame.Game.constructor | src/components/NumberSequenceGame.js:8-14 | initial state: 5 points, idle, no circles, next number 1, no time, auto-play off, nothing fading |
| NumberSequenceGame.Game.BeginInit | src/components/NumberSequenceGame.js:33-35 | counts above 500 show the loading phase; nothing else changes |
| NumberSequenceGame.Game.CompleteInit | src/components/NumberSequenceGame.js:38-53 | installs `points` freshly numbered, unclicked circles generated by `generateCircles(points, boardWidth, boardHeight)`: they carry its draw history (each circle the first accepted attempt, or the fallback after maxAttempts rejections), its spacing and its on-board guarantees; resets next number, time, fading list and auto-play; plays with the interval set |
| NumberSequenceGame.Game.HandleCircleClick | src/components/NumberSequenceGame.js:58-93 | not playing, unknown or clicked circle: no change. Expected circle: marked, next number +1, fading copy appended, all-cleared once the next number passes the count. Other circle: game over, timer stopped, wrong copy appended, circles unchanged |
| NumberSequenceGame.Game.ClickExpected | src/components/NumberSequenceGame.js:61-81 | the correct-click branch: exactly the clicked circle changes, the next number grows by one, one fading entry is appended, and all-cleared stops the interval |
| NumberSequenceGame.Game.ClickWrong | src/components/NumberSequenceGame.js:82-92 | the wrong-click branch: game over, interval stopped, one `isWrong` fading entry appended, circles and next number unchanged |
| NumberSequenceGame.Game.AutoPlayStep | src/components/NumberSequenceGame.js:96-106 | while playing with auto-play on, it clicks exactly circle `nextNumber` and takes the correct-click branch: that circle is marked, the next number grows by one, its fading copy is appended, the game is all-cleared once the next number passes the count (stopping the interval) and otherwise keeps playing; points, ticks and auto-play are unchanged. Otherwise nothing changes |
| NumberSequenceGame.Game.Reap | src/components/NumberSequenceGame.js:115-122 | the fading list becomes its reaped filter; nothing else changes |
| NumberSequenceGame.Game.Tick | src/components/NumberSequenceGame.js:50-52 | one tick is added while the interval is set; nothing else changes |
| NumberSequenceGame.Game.ToggleAutoPlay | src/components/NumberSequenceGame.js:142-144 | auto-play flips; nothing else changes |
| NumberSequenceGame.Game.SetPoints | src/components/NumberSequenceGame.js:137-140 | the point count becomes the clamped input; nothing else changes |
| NumberSequenceGame.Game.AllClearedAllClicked | src/components/NumberSequenceGame.js:77-81 | in an all-cleared game every circle is clicked |
| NumberSequenceGame.ClickAllInOrder | src/components/NumberSequenceGame.js:58-93 | clicking the expected number repeatedly always ends all-cleared with every circle clicked, never in game over |
| BasicGame.GeneratePoints | src/Game.js:7-13 | 10 points with ids 1..10 in order, both coordinates in [50, 350) |
| BasicGame.RemoveId | src/Game.js:31 | keeps exactly the points whose id differs, every occurrence of each, as an order-preserving subsequence |
| BasicGame.RemoveAbsent | src/Game.js:31 | removing an id that no point has changes nothing |
| BasicGame.RemoveNext | src/Game.js:29-33 | on a countdown from next, removing `next` drops exactly the head and leaves the countdown from next + 1 |
| BasicGame.Game.constructor | src/Game.js:16-20 | ten fresh points, next 1, not cleared; the invariant holds |
| BasicGame.Game.PointsEffect | src/Game.js:22-27 | the game becomes cleared when the point list is empty; points and next are unchanged |
| BasicGame.Game.HandleClick | src/Game.js:29-34 | the expected id removes exactly the head point and advances next by one; any other id changes nothing; the countdown invariant and "cleared iff empty" are kept |
| BasicGame.Game.HandleRestart | src/Game.js:36-42 | ten fresh points, next 1, not cleared |
| BasicGame.ClickOneToTen | src/Game.js:29-34 | clicking 1..10 in order from next = 1 empties the list and clears the game |

## Left out

- React plumbing is not modelled: hooks, rendering, CSS, DOM listeners and refs. State is plain fields, and each effect or callback is a method the caller invokes.
- Scheduling of timers is not modelled: `setInterval`, `setTimeout`, `requestAnimationFrame`, their cancellation, and the race between auto-play and manual clicks. The interval is the `Tick` method plus a `timerRunning` flag. The auto-play timeout and the reaper timeout are the methods `AutoPlayStep(now)` and `Reap(now)`.
- Floating-point time is not modelled: the +0.1 accumulation and `toFixed(1)` formatting (NumberSequenceGame.js:51, 147), and the start time and time taken in src/Game.js:18-19, 25, 39, 41. Elapsed time is an integer count of ticks.
- Floating-point rounding of coordinates is not modelled. Coordinates are exact reals.
- `Math.random` is a caller-supplied stream of samples in [0, 1), and no probabilistic claim is made. `Math.sqrt` is replaced by the equivalent squared comparison.
- `getGridCell` (src/utils/gameUtils.js:17-21) is never called in the source. Its flat-index arithmetic is `GameUtils.FlatIndex`.
- The `boardRef.current` guard of `initGame` (line 28) is not modelled. The measured board size is a parameter of `CompleteInit`. In the source that size is the board of the previous render, which is sized by the previous game's circle count.
- NumberSequenceGame.Game.CompleteInit: the count used is `points` when the frame runs. The source captures it when `initGame` is called. The two differ only if the count is edited between the call and the next animation frame.
- NumberSequenceGame.Game.HandleCircleClick: takes the clicked circle's id and looks the circle up in the current state. The source trusts the circle object it was rendered with. An id that matches no circle changes nothing.
- NumberSequenceGame.Game.SetPoints: requires that no game is playing, because the input is disabled then (src/components/GameControls.js:24). The input's own `max="2000"` attribute is not modelled; the handler's clamp to 5000 is.
- Presentation components are not part of this model: src/components/Circle.js, src/components/FadingCircle.js, src/components/Point.jsx, src/Point.js and the rest of src/components/GameControls.js. They hold only styling and opacity arithmetic.
- The mount effect of src/Game.js:44-46 is not modelled separately. It calls `handleRestart`, which is `BasicGame.Game.HandleRestart`.
