/** Circle generation and viewport culling (src/utils/gameUtils.js).

    `generateCircles` places `count` numbered circles on a board by rejection
    sampling: each candidate position is checked against the circles already
    placed in the 3x3 block of spatial-grid cells around it, and after
    `maxAttempts` rejected candidates one more candidate is taken unchecked.
    `Math.random()` is modelled by a caller-supplied stream of draws
    (`random(k)` is the k-th call), and `Math.sqrt(d) < minDistance` by the
    equivalent squared comparison `d < minDistance * minDistance`. */
module GameUtils {

  /** One draw of `Math.random()`: a real in [0, 1). */
  type Sample = r: real | 0.0 <= r < 1.0

  /** A placed target; `id` and `number` are both its place 1..count in the sequence. */
  datatype Circle = Circle(id: int, number: int, x: real, y: real, clicked: bool)

  /** Margin between a circle and the board's edge, in pixels. */
  const Padding: int := 10

  /** The constants `generateCircles` derives from its arguments. */
  datatype Layout = Layout(
    radius: int, minDistance: int, cellSize: int,
    gridWidth: nat, gridHeight: nat, maxAttempts: nat,
    boardWidth: nat, boardHeight: nat)

  /** What every layout built by LayoutFor satisfies: two size tiers, a cell as
      wide as the minimum spacing, and a grid that covers the whole board. */
  ghost predicate ValidLayout(l: Layout)
  {
    && (l.radius == 12 || l.radius == 20)
    && l.minDistance == 2 * l.radius + 5
    && l.cellSize == l.minDistance
    && (l.maxAttempts == 10 || l.maxAttempts == 30)
    && l.boardWidth <= l.gridWidth * l.cellSize
    && l.boardHeight <= l.gridHeight * l.cellSize
  }

  /** `Math.ceil(n / d)` for a non-negative n: the fewest cells of width d that cover n. */
  function CeilDiv(n: nat, d: int): (q: nat)
    requires d > 0
    ensures n <= q * d
    ensures (q - 1) * d < n
  {
    var q := (n + d - 1) / d;
    var r := (n + d - 1) % d;
    assert n + d - 1 == q * d + r && 0 <= r < d;
    q
  }

  /** The constants of `generateCircles` and `generatePosition`. */
  function LayoutFor(count: int, boardWidth: nat, boardHeight: nat): (l: Layout)
    ensures ValidLayout(l)
    ensures l.radius == (if count > 100 then 12 else 20)
    ensures l.maxAttempts == (if count > 1000 then 10 else 30)
    ensures l.boardWidth == boardWidth && l.boardHeight == boardHeight
    ensures (l.gridWidth - 1) * l.cellSize < boardWidth
    ensures (l.gridHeight - 1) * l.cellSize < boardHeight
  {
    var radius := if count > 100 then 12 else 20;
    var minDistance := 2 * radius + 5;
    var cellSize := minDistance;
    Layout(radius, minDistance, cellSize,
           CeilDiv(boardWidth, cellSize), CeilDiv(boardHeight, cellSize),
           if count > 1000 then 10 else 30,
           boardWidth, boardHeight)
  }

  /** The grid column (or row) of a coordinate: `Math.floor(v / cellSize)`. */
  function GridCoord(l: Layout, v: real): int
    requires ValidLayout(l)
  {
    (v / l.cellSize as real).Floor
  }

  /** Whether a position's cell lies inside the grid (the guard at line 89 and line 34). */
  predicate InGrid(l: Layout, x: real, y: real)
    requires ValidLayout(l)
  {
    0 <= GridCoord(l, x) < l.gridWidth && 0 <= GridCoord(l, y) < l.gridHeight
  }

  /** Multiplying by a non-negative factor keeps the order. */
  lemma {:induction false} MulMono(a: int, b: int, w: int)
    requires a <= b && w >= 0
    ensures a * w <= b * w
    decreases b - a
  {
    if a < b {
      MulMono(a + 1, b, w);
    }
  }

  lemma FlatBelow(gx: int, gy: int, w: int, h: int)
    requires 0 <= gx < w && 0 <= gy < h
    ensures 0 <= gy * w + gx < w * h
  {
    MulMono(0, gy, w);
    MulMono(gy + 1, h, w);
    assert (gy + 1) * w == gy * w + w;
    assert h * w == w * h;
  }

  /** Position of cell (gx, gy) in the flat array of cells: `gy * gridWidth + gx`. */
  function FlatIndex(l: Layout, gx: int, gy: int): (idx: nat)
    requires 0 <= gx < l.gridWidth && 0 <= gy < l.gridHeight
    ensures idx < l.gridWidth * l.gridHeight
  {
    FlatBelow(gx, gy, l.gridWidth, l.gridHeight);
    gy * l.gridWidth + gx
  }

  /** The flat index of the cell holding an in-grid position. */
  function CellOf(l: Layout, x: real, y: real): (idx: nat)
    requires ValidLayout(l) && InGrid(l, x, y)
    ensures idx < l.gridWidth * l.gridHeight
  {
    FlatIndex(l, GridCoord(l, x), GridCoord(l, y))
  }

  /** Whether a placed circle lies closer than `minDistance` to (x, y). */
  predicate TooClose(l: Layout, c: Circle, x: real, y: real)
  {
    var dx := c.x - x;
    var dy := c.y - y;
    var md := l.minDistance as real;
    dx * dx + dy * dy < md * md
  }

  /** Whether grid cell (nx, ny) is in range and stores a circle too close to (x, y). */
  predicate CellHit(l: Layout, cells: seq<seq<nat>>, circles: seq<Circle>, x: real, y: real, nx: int, ny: int)
  {
    && 0 <= nx < l.gridWidth && 0 <= ny < l.gridHeight
    && |cells| == l.gridWidth * l.gridHeight
    && var cell := cells[FlatIndex(l, nx, ny)];
       exists k :: 0 <= k < |cell| && cell[k] < |circles| && TooClose(l, circles[cell[k]], x, y)
  }

  /** What `checkCollision(x, y)` answers: some in-range cell of the 3x3 block
      around (x, y) stores a circle closer than `minDistance`. */
  predicate Collides(l: Layout, cells: seq<seq<nat>>, circles: seq<Circle>, x: real, y: real)
    requires ValidLayout(l)
  {
    var gx := GridCoord(l, x);
    var gy := GridCoord(l, y);
    exists nx, ny :: gx - 1 <= nx <= gx + 1 && gy - 1 <= ny <= gy + 1 && CellHit(l, cells, circles, x, y, nx, ny)
  }

  /** The brute-force question the grid answers: is any placed circle whose
      cell lies inside the grid closer than `minDistance` to (x, y)? */
  predicate CollidesAny(l: Layout, circles: seq<Circle>, x: real, y: real)
    requires ValidLayout(l)
  {
    exists i :: 0 <= i < |circles| && InGrid(l, circles[i].x, circles[i].y) && TooClose(l, circles[i], x, y)
  }

  /** The spatial grid's invariant: one cell per grid position, every stored
      index names an already placed circle lying in that very cell, and every
      placed circle whose cell is in range is stored there. */
  ghost predicate GridInv(l: Layout, cells: seq<seq<nat>>, circles: seq<Circle>)
    requires ValidLayout(l)
  {
    && |cells| == l.gridWidth * l.gridHeight
    && (forall c, k :: 0 <= c < |cells| && 0 <= k < |cells[c]| ==>
          && cells[c][k] < |circles|
          && InGrid(l, circles[cells[c][k]].x, circles[cells[c][k]].y)
          && CellOf(l, circles[cells[c][k]].x, circles[cells[c][k]].y) == c)
    && (forall i :: 0 <= i < |circles| && InGrid(l, circles[i].x, circles[i].y) ==>
          i in cells[CellOf(l, circles[i].x, circles[i].y)])
  }

  /** Two reals closer than one cell lie in the same or adjacent grid columns. */
  lemma FloorNear(l: Layout, a: real, b: real)
    requires ValidLayout(l)
    requires -(l.cellSize as real) < a - b < l.cellSize as real
    ensures -1 <= GridCoord(l, a) - GridCoord(l, b) <= 1
  {
    var s := l.cellSize as real;
    var u, v := a / s, b / s;
    assert (u - v) * s == a - b;
    if u - v >= 1.0 {
      assert false;
    }
    if u - v <= -1.0 {
      assert false;
    }
  }

  /** A squared distance below m * m bounds each coordinate difference by m. */
  lemma SquareBound(d: real, e: real, m: real)
    requires m > 0.0 && d * d + e * e < m * m
    ensures -m < d < m
  {
    assert e * e >= 0.0;
    if d >= m {
      assert false;
    } else if d <= -m {
      assert false;
    }
  }

  /** Every circle the 3x3 grid scan finds is a placed, in-grid circle that is too close. */
  lemma CollidesSound(l: Layout, cells: seq<seq<nat>>, circles: seq<Circle>, x: real, y: real)
    requires ValidLayout(l) && GridInv(l, cells, circles)
    requires Collides(l, cells, circles, x, y)
    ensures CollidesAny(l, circles, x, y)
  {
    var gx, gy := GridCoord(l, x), GridCoord(l, y);
    var nx, ny :| gx - 1 <= nx <= gx + 1 && gy - 1 <= ny <= gy + 1 && CellHit(l, cells, circles, x, y, nx, ny);
    var idx := FlatIndex(l, nx, ny);
    var k :| 0 <= k < |cells[idx]| && cells[idx][k] < |circles| && TooClose(l, circles[cells[idx][k]], x, y);
    var i := cells[idx][k];
    assert InGrid(l, circles[i].x, circles[i].y);
  }

  /** The 3x3 grid scan misses no in-grid circle that is too close: a cell is
      `minDistance` wide, so such a circle sits at most one cell away. */
  lemma CollidesComplete(l: Layout, cells: seq<seq<nat>>, circles: seq<Circle>, x: real, y: real, i: int)
    requires ValidLayout(l) && GridInv(l, cells, circles)
    requires 0 <= i < |circles| && InGrid(l, circles[i].x, circles[i].y) && TooClose(l, circles[i], x, y)
    ensures Collides(l, cells, circles, x, y)
  {
    var c := circles[i];
    var md := l.minDistance as real;
    SquareBound(c.x - x, c.y - y, md);
    SquareBound(c.y - y, c.x - x, md);
    FloorNear(l, c.x, x);
    FloorNear(l, c.y, y);
    var nx, ny := GridCoord(l, c.x), GridCoord(l, c.y);
    var idx := FlatIndex(l, nx, ny);
    assert idx == CellOf(l, c.x, c.y);
    assert i in cells[idx];
    var k :| 0 <= k < |cells[idx]| && cells[idx][k] == i;
    assert CellHit(l, cells, circles, x, y, nx, ny);
  }

  /** The 3x3 grid scan answers exactly the brute-force question. */
  lemma CollidesExactly(l: Layout, cells: seq<seq<nat>>, circles: seq<Circle>, x: real, y: real)
    requires ValidLayout(l) && GridInv(l, cells, circles)
    ensures Collides(l, cells, circles, x, y) <==> CollidesAny(l, circles, x, y)
  {
    if Collides(l, cells, circles, x, y) {
      CollidesSound(l, cells, circles, x, y);
    }
    if CollidesAny(l, circles, x, y) {
      var i :| 0 <= i < |circles| && InGrid(l, circles[i].x, circles[i].y) && TooClose(l, circles[i], x, y);
      CollidesComplete(l, cells, circles, x, y, i);
    }
  }

  /** `checkCollision(x, y)` (lines 24-51): scans the 3x3 block of cells around
      (x, y), skipping cells outside the grid, and stops at the first stored
      circle closer than `minDistance`. */
  method CheckCollision(l: Layout, grid: array<seq<nat>>, circles: seq<Circle>, x: real, y: real)
    returns (hit: bool)
    requires ValidLayout(l) && grid.Length == l.gridWidth * l.gridHeight
    requires forall c, k :: 0 <= c < grid.Length && 0 <= k < |grid[c]| ==> grid[c][k] < |circles|
    ensures hit == Collides(l, grid[..], circles, x, y)
  {
    var gx := GridCoord(l, x);
    var gy := GridCoord(l, y);
    ghost var cells := grid[..];
    var dy := -1;
    while dy <= 1
      invariant -1 <= dy <= 2
      invariant forall nx, ny :: gx - 1 <= nx <= gx + 1 && gy - 1 <= ny < gy + dy ==>
                  !CellHit(l, cells, circles, x, y, nx, ny)
    {
      var ny := gy + dy;
      var dx := -1;
      while dx <= 1
        invariant -1 <= dx <= 2
        invariant forall nx :: gx - 1 <= nx < gx + dx ==> !CellHit(l, cells, circles, x, y, nx, ny)
      {
        var nx := gx + dx;
        if 0 <= nx < l.gridWidth && 0 <= ny < l.gridHeight {
          var cell := grid[FlatIndex(l, nx, ny)];
          var k := 0;
          while k < |cell|
            invariant 0 <= k <= |cell|
            invariant forall j :: 0 <= j < k ==> !TooClose(l, circles[cell[j]], x, y)
          {
            var circle := circles[cell[k]];
            var ddx := circle.x - x;
            var ddy := circle.y - y;
            var md := l.minDistance as real;
            if ddx * ddx + ddy * ddy < md * md {
              assert cells[FlatIndex(l, nx, ny)] == cell;
              assert CellHit(l, cells, circles, x, y, nx, ny);
              assert gx - 1 <= nx <= gx + 1 && gy - 1 <= ny <= gy + 1;
              return true;
            }
            k := k + 1;
          }
          assert cells[FlatIndex(l, nx, ny)] == cell;
        }
        assert !CellHit(l, cells, circles, x, y, nx, ny);
        dx := dx + 1;
      }
      dy := dy + 1;
    }
    return false;
  }

  /** One coordinate of a candidate position (lines 59-60, 69-70):
      `Math.random() * (side - 2 * radius - 2 * padding) + radius + padding`. */
  function Candidate(l: Layout, s: Sample, side: nat): real
  {
    Scale(s, (side - 2 * l.radius - 2 * Padding) as real) + (l.radius + Padding) as real
  }

  /** A draw in [0, 1) times a span: within [0, span] for a non-negative span,
      strictly below it for a positive one. */
  function Scale(s: Sample, span: real): (p: real)
    ensures span >= 0.0 ==> 0.0 <= p <= span
    ensures span > 0.0 ==> p < span
  {
    assert span >= 0.0 ==> (1.0 - s) * span >= 0.0;
    assert span > 0.0 ==> (1.0 - s) * span > 0.0;
    s * span
  }

  /** Whether a board side leaves room for a whole circle plus its padding. */
  predicate HasRoom(l: Layout, side: nat)
  {
    side >= 2 * (l.radius + Padding)
  }

  /** On a side with room, a candidate lies in [radius + padding, side - radius - padding],
      strictly below the upper end unless the side is exactly 2 * (radius + padding). */
  lemma CandidateBounds(l: Layout, s: Sample, side: nat)
    requires HasRoom(l, side)
    ensures (l.radius + Padding) as real <= Candidate(l, s, side) <= (side - l.radius - Padding) as real
    ensures side > 2 * (l.radius + Padding) ==> Candidate(l, s, side) < (side - l.radius - Padding) as real
  {
    var span := (side - 2 * l.radius - 2 * Padding) as real;
    var low := (l.radius + Padding) as real;
    var high := (side - l.radius - Padding) as real;
    assert high == span + low && span >= 0.0;
    assert Candidate(l, s, side) == Scale(s, span) + low;
  }

  /** Whether a circle's centre lies within the padded board. */
  predicate OnBoard(l: Layout, c: Circle)
  {
    && (l.radius + Padding) as real <= c.x <= (l.boardWidth - l.radius - Padding) as real
    && (l.radius + Padding) as real <= c.y <= (l.boardHeight - l.radius - Padding) as real
  }

  /** A centre within the padded board lies in a cell inside the grid. */
  lemma OnBoardInGrid(l: Layout, c: Circle)
    requires ValidLayout(l) && OnBoard(l, c)
    ensures InGrid(l, c.x, c.y)
  {
    var s := l.cellSize as real;
    assert l.boardWidth as real <= l.gridWidth as real * s;
    assert l.boardHeight as real <= l.gridHeight as real * s;
    if l.cellSize == 29 {
      assert s == 29.0;
    } else {
      assert s == 45.0;
    }
    assert c.x / s < l.gridWidth as real;
    assert c.y / s < l.gridHeight as real;
  }

  /** The x coordinate of attempt `a` of a position whose first draw is `start`. */
  function AttemptX(l: Layout, random: nat -> Sample, start: nat, a: nat): real
  {
    Candidate(l, random(start + 2 * a), l.boardWidth)
  }

  /** The y coordinate of attempt `a` of a position whose first draw is `start`. */
  function AttemptY(l: Layout, random: nat -> Sample, start: nat, a: nat): real
  {
    Candidate(l, random(start + 2 * a + 1), l.boardHeight)
  }

  /** Whether the grid check rejects attempt `a`. */
  predicate Rejected(l: Layout, cells: seq<seq<nat>>, circles: seq<Circle>, random: nat -> Sample, start: nat, a: nat)
    requires ValidLayout(l)
  {
    Collides(l, cells, circles, AttemptX(l, random, start, a), AttemptY(l, random, start, a))
  }

  /** `generatePosition()` (lines 55-72): up to `maxAttempts` checked candidates,
      then one unchecked candidate. Draws `random(draw)`, `random(draw + 1)`, ...
      two per candidate, x before y, and returns the next unused draw. The
      returned candidate is attempt `attempt`: every earlier attempt was
      rejected by the grid check, and either this one passed it (`accepted`)
      or all `maxAttempts` checked attempts were rejected and this is the
      unchecked fallback. */
  method GeneratePosition(l: Layout, grid: array<seq<nat>>, circles: seq<Circle>, random: nat -> Sample, draw: nat)
    returns (x: real, y: real, ghost accepted: bool, ghost attempt: nat, next: nat)
    requires ValidLayout(l) && grid.Length == l.gridWidth * l.gridHeight
    requires forall c, k :: 0 <= c < grid.Length && 0 <= k < |grid[c]| ==> grid[c][k] < |circles|
    ensures attempt <= l.maxAttempts && next == draw + 2 * (attempt + 1)
    ensures accepted <==> attempt < l.maxAttempts
    ensures x == AttemptX(l, random, draw, attempt) && y == AttemptY(l, random, draw, attempt)
    ensures accepted ==> !Collides(l, grid[..], circles, x, y)
    ensures forall a :: 0 <= a < attempt ==> Rejected(l, grid[..], circles, random, draw, a)
  {
    next := draw;
    var tried := 0;
    while tried < l.maxAttempts
      invariant 0 <= tried <= l.maxAttempts
      invariant next == draw + 2 * tried
      invariant forall a :: 0 <= a < tried ==> Rejected(l, grid[..], circles, random, draw, a)
    {
      x := Candidate(l, random(next), l.boardWidth);
      y := Candidate(l, random(next + 1), l.boardHeight);
      next := next + 2;
      var hit := CheckCollision(l, grid, circles, x, y);
      if !hit {
        accepted, attempt := true, tried;
        return;
      }
      assert Rejected(l, grid[..], circles, random, draw, tried);
      tried := tried + 1;
    }
    x := Candidate(l, random(next), l.boardWidth);
    y := Candidate(l, random(next + 1), l.boardHeight);
    next := next + 2;
    accepted, attempt := false, tried;
  }

  /** Storing circle number n (index n in `circles`) in the cell of its centre
      keeps the grid invariant. */
  lemma GridInvPush(l: Layout, cells: seq<seq<nat>>, circles: seq<Circle>, c: Circle)
    requires ValidLayout(l) && GridInv(l, cells, circles) && InGrid(l, c.x, c.y)
    ensures var idx := CellOf(l, c.x, c.y);
            GridInv(l, cells[idx := cells[idx] + [|circles|]], circles + [c])
  {
    var idx := CellOf(l, c.x, c.y);
    var cells' := cells[idx := cells[idx] + [|circles|]];
    var circles' := circles + [c];
    forall d, k | 0 <= d < |cells'| && 0 <= k < |cells'[d]|
      ensures cells'[d][k] < |circles'|
      ensures InGrid(l, circles'[cells'[d][k]].x, circles'[cells'[d][k]].y)
      ensures CellOf(l, circles'[cells'[d][k]].x, circles'[cells'[d][k]].y) == d
    {
      if d != idx || k < |cells[d]| {
        assert cells'[d][k] == cells[d][k];
      }
    }
    forall i | 0 <= i < |circles'| && InGrid(l, circles'[i].x, circles'[i].y)
      ensures i in cells'[CellOf(l, circles'[i].x, circles'[i].y)]
    {
      if i < |circles| {
        var j := CellOf(l, circles[i].x, circles[i].y);
        assert i in cells[j];
        if j == idx {
          assert cells'[j] == cells[j] + [|circles|];
        }
      } else {
        assert cells'[idx][|cells[idx]|] == i;
      }
    }
  }

  /** A circle whose cell is out of range is not stored, and the grid invariant holds on. */
  lemma GridInvSkip(l: Layout, cells: seq<seq<nat>>, circles: seq<Circle>, c: Circle)
    requires ValidLayout(l) && GridInv(l, cells, circles) && !InGrid(l, c.x, c.y)
    ensures GridInv(l, cells, circles + [c])
  {
    var circles' := circles + [c];
    forall d, k | 0 <= d < |cells| && 0 <= k < |cells[d]|
      ensures circles'[cells[d][k]] == circles[cells[d][k]]
    {
    }
  }

  /** Circle i sits at index i - 1 with `id == number == i` and is not clicked. */
  predicate Numbered(circles: seq<Circle>)
  {
    forall i :: 0 <= i < |circles| ==>
      circles[i].id == i + 1 && circles[i].number == i + 1 && !circles[i].clicked
  }

  /** No circle placed by an accepted (checked) candidate is too close to an
      earlier circle stored in the grid. */
  ghost predicate Spaced(l: Layout, circles: seq<Circle>, accepted: seq<bool>)
    requires ValidLayout(l) && |accepted| == |circles|
  {
    forall a, b :: 0 <= b < a < |circles| && accepted[a] && InGrid(l, circles[b].x, circles[b].y) ==>
      !TooClose(l, circles[b], circles[a].x, circles[a].y)
  }

  /** Appending a circle whose position passed the grid check keeps the spacing. */
  lemma SpacedStep(l: Layout, cells: seq<seq<nat>>, circles: seq<Circle>, accepted: seq<bool>, c: Circle, ok: bool)
    requires ValidLayout(l) && GridInv(l, cells, circles) && |accepted| == |circles|
    requires Spaced(l, circles, accepted)
    requires ok ==> !Collides(l, cells, circles, c.x, c.y)
    ensures Spaced(l, circles + [c], accepted + [ok])
  {
    if ok {
      CollidesExactly(l, cells, circles, c.x, c.y);
    }
    var circles', accepted' := circles + [c], accepted + [ok];
    forall a, b | 0 <= b < a < |circles'| && accepted'[a] && InGrid(l, circles'[b].x, circles'[b].y)
      ensures !TooClose(l, circles'[b], circles'[a].x, circles'[a].y)
    {
      if a == |circles| {
        assert circles'[b] == circles[b];
      }
    }
  }

  /** Whether the brute-force test finds attempt `a` too close to a placed in-grid circle. */
  predicate RejectedAny(l: Layout, circles: seq<Circle>, random: nat -> Sample, start: nat, a: nat)
    requires ValidLayout(l)
  {
    CollidesAny(l, circles, AttemptX(l, random, start, a), AttemptY(l, random, start, a))
  }

  /** The draw history of the circles placed so far: circle i took its draws
      from `starts[i]` on, right after those of circle i - 1, and sits at
      attempt `tries[i]`; every earlier attempt of circle i lay too close to
      one of the circles 0..i-1 in the grid; circle i was accepted exactly when
      it is one of the `maxAttempts` checked attempts. `draws` is the number of
      draws used. */
  ghost predicate Sampled(l: Layout, circles: seq<Circle>, accepted: seq<bool>, random: nat -> Sample,
                          starts: seq<nat>, tries: seq<nat>, draws: nat)
    requires ValidLayout(l)
  {
    && |starts| == |tries| == |accepted| == |circles|
    && (forall i :: 0 <= i < |circles| ==>
          starts[i] == (if i == 0 then 0 else starts[i - 1] + 2 * (tries[i - 1] + 1)))
    && draws == (if |circles| == 0 then 0 else starts[|circles| - 1] + 2 * (tries[|circles| - 1] + 1))
    && (forall i :: 0 <= i < |circles| ==> tries[i] <= l.maxAttempts && (accepted[i] <==> tries[i] < l.maxAttempts))
    && (forall i :: 0 <= i < |circles| ==>
          circles[i].x == AttemptX(l, random, starts[i], tries[i]) && circles[i].y == AttemptY(l, random, starts[i], tries[i]))
    && (forall i, a :: 0 <= i < |circles| && 0 <= a < tries[i] ==> RejectedAny(l, circles[..i], random, starts[i], a))
  }

  /** Under the grid invariant, the attempts the grid check rejected are
      exactly too close to a placed in-grid circle. */
  lemma RejectedExactly(l: Layout, cells: seq<seq<nat>>, circles: seq<Circle>, random: nat -> Sample, start: nat, t: nat)
    requires ValidLayout(l) && GridInv(l, cells, circles)
    requires forall a :: 0 <= a < t ==> Rejected(l, cells, circles, random, start, a)
    ensures forall a :: 0 <= a < t ==> RejectedAny(l, circles, random, start, a)
  {
    forall a | 0 <= a < t
      ensures RejectedAny(l, circles, random, start, a)
    {
      assert Rejected(l, cells, circles, random, start, a);
      CollidesExactly(l, cells, circles, AttemptX(l, random, start, a), AttemptY(l, random, start, a));
    }
  }

  /** Appending a circle taken at attempt t from the next unused draw, after t
      rejected attempts, extends the draw history. */
  lemma SampledStep(l: Layout, circles: seq<Circle>, accepted: seq<bool>, random: nat -> Sample,
                    starts: seq<nat>, tries: seq<nat>, draws: nat, c: Circle, ok: bool, t: nat)
    requires ValidLayout(l)
    requires Sampled(l, circles, accepted, random, starts, tries, draws)
    requires t <= l.maxAttempts && (ok <==> t < l.maxAttempts)
    requires c.x == AttemptX(l, random, draws, t) && c.y == AttemptY(l, random, draws, t)
    requires forall a :: 0 <= a < t ==> RejectedAny(l, circles, random, draws, a)
    ensures Sampled(l, circles + [c], accepted + [ok], random, starts + [draws], tries + [t], draws + 2 * (t + 1))
  {
    var n := |circles|;
    var circles', accepted', starts', tries' := circles + [c], accepted + [ok], starts + [draws], tries + [t];
    forall i | 0 <= i < n + 1
      ensures starts'[i] == (if i == 0 then 0 else starts'[i - 1] + 2 * (tries'[i - 1] + 1))
    {
      if i < n {
        assert starts'[i] == starts[i];
        if i > 0 {
          assert starts'[i - 1] == starts[i - 1] && tries'[i - 1] == tries[i - 1];
        }
      }
    }
    forall i | 0 <= i < n + 1
      ensures tries'[i] <= l.maxAttempts && (accepted'[i] <==> tries'[i] < l.maxAttempts)
      ensures circles'[i].x == AttemptX(l, random, starts'[i], tries'[i])
      ensures circles'[i].y == AttemptY(l, random, starts'[i], tries'[i])
    {
      if i < n {
        assert circles'[i] == circles[i] && accepted'[i] == accepted[i];
        assert starts'[i] == starts[i] && tries'[i] == tries[i];
      }
    }
    forall i, a | 0 <= i < n + 1 && 0 <= a < tries'[i]
      ensures RejectedAny(l, circles'[..i], random, starts'[i], a)
    {
      if i < n {
        assert circles'[..i] == circles[..i];
        assert starts'[i] == starts[i] && tries'[i] == tries[i];
      } else {
        assert circles'[..i] == circles;
      }
    }
  }

  /** Whether every circle lies within the padded board and in the grid, on a board with room. */
  predicate PlacedInside(l: Layout, circles: seq<Circle>)
    requires ValidLayout(l)
  {
    HasRoom(l, l.boardWidth) && HasRoom(l, l.boardHeight) ==>
      forall i :: 0 <= i < |circles| ==> OnBoard(l, circles[i]) && InGrid(l, circles[i].x, circles[i].y)
  }

  /** One iteration of the loop of lines 75-91: the next circle, numbered
      `|circles| + 1`, is placed by `generatePosition` from draw `draw` on and
      pushed into the grid cell of its centre when that cell is in range. */
  method PlaceCircle(l: Layout, grid: array<seq<nat>>, circles: seq<Circle>, ghost accepted: seq<bool>,
                     random: nat -> Sample, ghost starts: seq<nat>, ghost tries: seq<nat>, draw: nat)
    returns (c: Circle, ghost ok: bool, ghost t: nat, next: nat)
    requires ValidLayout(l) && grid.Length == l.gridWidth * l.gridHeight
    requires Sampled(l, circles, accepted, random, starts, tries, draw)
    requires GridInv(l, grid[..], circles) && Spaced(l, circles, accepted) && PlacedInside(l, circles)
    modifies grid
    ensures c.id == |circles| + 1 && c.number == |circles| + 1 && !c.clicked
    ensures next <= draw + 2 * (l.maxAttempts + 1)
    ensures GridInv(l, grid[..], circles + [c]) && Spaced(l, circles + [c], accepted + [ok])
    ensures PlacedInside(l, circles + [c])
    ensures Sampled(l, circles + [c], accepted + [ok], random, starts + [draw], tries + [t], next)
  {
    var x, y;
    x, y, ok, t, next := GeneratePosition(l, grid, circles, random, draw);
    c := Circle(|circles| + 1, |circles| + 1, x, y, false);
    ghost var cells := grid[..];
    SpacedStep(l, cells, circles, accepted, c, ok);
    RejectedExactly(l, cells, circles, random, draw, t);
    SampledStep(l, circles, accepted, random, starts, tries, draw, c, ok, t);
    if HasRoom(l, l.boardWidth) && HasRoom(l, l.boardHeight) {
      CandidateBounds(l, random(next - 2), l.boardWidth);
      CandidateBounds(l, random(next - 1), l.boardHeight);
      OnBoardInGrid(l, c);
    }
    var gx := GridCoord(l, x);
    var gy := GridCoord(l, y);
    if 0 <= gx < l.gridWidth && 0 <= gy < l.gridHeight {
      var idx := FlatIndex(l, gx, gy);
      GridInvPush(l, cells, circles, c);
      grid[idx] := grid[idx] + [|circles|];
      assert grid[..] == cells[idx := cells[idx] + [|circles|]];
    } else {
      GridInvSkip(l, cells, circles, c);
    }
  }

  /** `generateCircles(count, boardWidth, boardHeight)` (lines 3-95). Returns
      max(count, 0) circles numbered 1..count, unclicked. A circle whose
      position was accepted (not the unchecked fallback) is not too close to any
      earlier circle stored in the grid, and every candidate tried before it
      was too close to one; on a board with room every circle is stored in the
      grid and lies within the padded board. `draws` counts the calls to
      `Math.random()`. */
  method GenerateCircles(count: int, boardWidth: nat, boardHeight: nat, random: nat -> Sample)
    returns (circles: seq<Circle>, ghost accepted: seq<bool>, ghost starts: seq<nat>, ghost tries: seq<nat>, ghost draws: nat)
    ensures |circles| == |accepted| == (if count > 0 then count else 0)
    ensures Numbered(circles)
    ensures Spaced(LayoutFor(count, boardWidth, boardHeight), circles, accepted)
    ensures Sampled(LayoutFor(count, boardWidth, boardHeight), circles, accepted, random, starts, tries, draws)
    ensures PlacedInside(LayoutFor(count, boardWidth, boardHeight), circles)
    ensures draws <= 2 * (LayoutFor(count, boardWidth, boardHeight).maxAttempts + 1) * |circles|
  {
    var l := LayoutFor(count, boardWidth, boardHeight);
    var grid := new seq<nat>[l.gridWidth * l.gridHeight](_ => []);
    ghost var perCircle := 2 * (l.maxAttempts + 1);
    circles, accepted, starts, tries := [], [], [], [];
    var draw: nat := 0;
    var i := 1;
    while i <= count
      invariant 1 <= i && |circles| == |accepted| == i - 1
      invariant i <= (if count > 0 then count else 0) + 1
      invariant Numbered(circles)
      invariant GridInv(l, grid[..], circles)
      invariant Spaced(l, circles, accepted)
      invariant Sampled(l, circles, accepted, random, starts, tries, draw)
      invariant PlacedInside(l, circles)
      invariant draw <= perCircle * |circles|
    {
      var c, ok, t, next := PlaceCircle(l, grid, circles, accepted, random, starts, tries, draw);
      assert perCircle * (|circles| + 1) == perCircle * |circles| + perCircle;
      circles := circles + [c];
      accepted := accepted + [ok];
      starts := starts + [draw];
      tries := tries + [t];
      draw := next;
      i := i + 1;
    }
    draws := draw;
  }

  /** Whether a circle's centre lies within the viewport grown by `padding` on
      every side (the four inclusive tests of lines 102-105). */
  predicate InView(c: Circle, top: real, bottom: real, left: real, right: real, padding: real)
  {
    && c.x + padding >= left
    && c.x - padding <= right
    && c.y + padding >= top
    && c.y - padding <= bottom
  }

  /** `getVisibleCircles` (lines 100-106): the circles in view, in input order. */
  function GetVisibleCircles(circles: seq<Circle>, top: real, bottom: real, left: real, right: real,
                             padding: real := 100.0): (r: seq<Circle>)
    ensures |r| <= |circles|
    ensures forall c :: c in r <==> c in circles && InView(c, top, bottom, left, right, padding)
  {
    if circles == [] then []
    else
      var rest := GetVisibleCircles(circles[1..], top, bottom, left, right, padding);
      if InView(circles[0], top, bottom, left, right, padding) then [circles[0]] + rest else rest
  }

  /** Whether `sub` is `s` with some elements dropped and the rest kept in order. */
  predicate IsSubsequence<T(==)>(sub: seq<T>, s: seq<T>)
  {
    if s == [] then sub == []
    else (sub != [] && sub[0] == s[0] && IsSubsequence(sub[1..], s[1..])) || IsSubsequence(sub, s[1..])
  }

  /** The visible circles keep their input order. */
  lemma {:induction false} VisibleIsSubsequence(circles: seq<Circle>, top: real, bottom: real, left: real, right: real, padding: real)
    ensures IsSubsequence(GetVisibleCircles(circles, top, bottom, left, right, padding), circles)
  {
    if circles != [] {
      var rest := GetVisibleCircles(circles[1..], top, bottom, left, right, padding);
      VisibleIsSubsequence(circles[1..], top, bottom, left, right, padding);
      if InView(circles[0], top, bottom, left, right, padding) {
        assert ([circles[0]] + rest)[1..] == rest;
      }
    }
  }

  /** Culling distributes over concatenation: the filter works element by element, in order. */
  lemma {:induction false} VisibleAppend(a: seq<Circle>, b: seq<Circle>, top: real, bottom: real, left: real, right: real, padding: real)
    ensures GetVisibleCircles(a + b, top, bottom, left, right, padding)
         == GetVisibleCircles(a, top, bottom, left, right, padding) + GetVisibleCircles(b, top, bottom, left, right, padding)
  {
    if a != [] {
      assert (a + b)[1..] == a[1..] + b;
      VisibleAppend(a[1..], b, top, bottom, left, right, padding);
    } else {
      assert a + b == b;
    }
  }

  /** Culling twice with the same viewport is culling once. */
  lemma {:induction false} VisibleIdempotent(circles: seq<Circle>, top: real, bottom: real, left: real, right: real, padding: real)
    ensures var once := GetVisibleCircles(circles, top, bottom, left, right, padding);
            GetVisibleCircles(once, top, bottom, left, right, padding) == once
  {
    if circles != [] {
      var rest := GetVisibleCircles(circles[1..], top, bottom, left, right, padding);
      VisibleIdempotent(circles[1..], top, bottom, left, right, padding);
      if InView(circles[0], top, bottom, left, right, padding) {
        assert ([circles[0]] + rest)[1..] == rest;
      }
    }
  }

  /** The inclusive edge of the default 100-pixel padding, on a 600 x 600 viewport. */
  lemma VisibleEdgeExample()
    ensures GetVisibleCircles([Circle(1, 1, 700.0, 300.0, false)], 0.0, 600.0, 0.0, 600.0)
         == [Circle(1, 1, 700.0, 300.0, false)]
    ensures GetVisibleCircles([Circle(1, 1, 701.0, 300.0, false)], 0.0, 600.0, 0.0, 600.0) == []
  {
  }
}
