/** The basic variant of the game (src/Game.js): ten points numbered 1..10;
    clicking the expected point removes it, any other click is ignored, and
    the game is cleared when no point is left. `Math.random()` is the
    caller-supplied stream `random`; the start time and the time taken are
    left out. */
module BasicGame {
  import opened GameUtils

  /** Number of points per game (`TOTAL_POINTS`). */
  const TotalPoints: int := 10

  /** A point to click, with its position on the 400-pixel board. */
  datatype Point = Point(id: int, x: real, y: real)

  /** `generatePoints` (lines 7-13): points 1..10, each coordinate
      `Math.random() * 300 + 50`, drawn x then y, point by point. */
  function GeneratePoints(random: nat -> Sample): (r: seq<Point>)
    ensures |r| == TotalPoints
    ensures forall i :: 0 <= i < |r| ==> r[i].id == i + 1
    ensures forall i :: 0 <= i < |r| ==> 50.0 <= r[i].x < 350.0 && 50.0 <= r[i].y < 350.0
  {
    seq(TotalPoints, i requires 0 <= i < TotalPoints =>
      Point(i + 1, random(2 * i) * 300.0 + 50.0, random(2 * i + 1) * 300.0 + 50.0))
  }

  /** `points.filter((p) => p.id !== id)` (line 31): every point but those with this id, in order. */
  function RemoveId(points: seq<Point>, id: int): (r: seq<Point>)
    ensures forall p :: p in r <==> p in points && p.id != id
    ensures forall p :: multiset(r)[p] == if p.id != id then multiset(points)[p] else 0
    ensures IsSubsequence(r, points)
  {
    if points == [] then []
    else
      assert points == [points[0]] + points[1..];
      var rest := RemoveId(points[1..], id);
      if points[0].id != id then [points[0]] + rest else rest
  }

  /** Removing an id no point has changes nothing. */
  lemma {:induction false} RemoveAbsent(points: seq<Point>, id: int)
    requires forall i :: 0 <= i < |points| ==> points[i].id != id
    ensures RemoveId(points, id) == points
  {
    if points != [] {
      RemoveAbsent(points[1..], id);
      assert [points[0]] + points[1..] == points;
    }
  }

  /** The points still on the board are exactly next, next + 1, ..., 10, in order. */
  predicate Countdown(points: seq<Point>, next: int)
  {
    && 1 <= next
    && |points| == (if next <= TotalPoints + 1 then TotalPoints + 1 - next else 0)
    && forall i :: 0 <= i < |points| ==> points[i].id == next + i
  }

  /** Removing the expected point from a countdown takes off its head, and the
      rest is the countdown from the next number. */
  lemma RemoveNext(points: seq<Point>, next: int)
    requires Countdown(points, next)
    ensures RemoveId(points, next) == (if points == [] then [] else points[1..])
    ensures Countdown(RemoveId(points, next), next + 1)
  {
    if points != [] {
      RemoveAbsent(points[1..], next);
    }
  }

  /** The state of the basic game component (lines 16-20). */
  class Game {
    var points: seq<Point>
    var next: int
    var allCleared: bool

    /** The remaining points count down from `next`, and the game is cleared
        exactly when none is left. */
    ghost predicate Valid()
      reads this
    {
      Countdown(points, next) && (allCleared <==> points == [])
    }

    /** The initial state: ten fresh points, 1 expected, not cleared. */
    constructor (random: nat -> Sample)
      ensures Valid() && points == GeneratePoints(random) && next == 1 && !allCleared
    {
      points := GeneratePoints(random);
      next := 1;
      allCleared := false;
    }

    /** The effect on `points` (lines 22-27): the game is cleared once the
        list is empty. */
    method PointsEffect()
      requires Countdown(points, next) && (allCleared ==> points == [])
      modifies this
      ensures Valid()
      ensures allCleared == (old(allCleared) || points == [])
      ensures points == old(points) && next == old(next)
    {
      if |points| == 0 {
        allCleared := true;
      }
    }

    /** `handleClick` (lines 29-34) followed by the effect it triggers: the
        expected point is removed and the next one becomes expected; any
        other id changes nothing. */
    method HandleClick(id: int)
      requires Valid()
      modifies this
      ensures Valid()
      ensures id == old(next) ==>
                && points == RemoveId(old(points), id)
                && points == (if old(points) == [] then [] else old(points)[1..])
                && next == id + 1
      ensures id != old(next) ==> unchanged(this)
    {
      if id == next {
        RemoveNext(points, next);
        points := RemoveId(points, id);
        next := id + 1;
        PointsEffect();
      }
    }

    /** `handleRestart` (lines 36-42): ten fresh points, 1 expected, not cleared. */
    method HandleRestart(random: nat -> Sample)
      requires Valid()
      modifies this
      ensures Valid() && points == GeneratePoints(random) && next == 1 && !allCleared
    {
      points := GeneratePoints(random);
      next := 1;
      allCleared := false;
    }
  }

  /** Clicking 1, 2, ..., 10 in order from a fresh game clears it. */
  method ClickOneToTen(g: Game)
    requires g.Valid() && g.next == 1
    modifies g
    ensures g.Valid() && g.points == [] && g.allCleared && g.next == TotalPoints + 1
  {
    var k := 1;
    while k <= TotalPoints
      invariant 1 <= k <= TotalPoints + 1
      invariant g.Valid() && g.next == k
    {
      g.HandleClick(k);
      k := k + 1;
    }
  }
}
