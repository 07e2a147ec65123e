/** The click/sequence state machine of the number-sequence game
    (src/components/NumberSequenceGame.js).

    The component's React state becomes the fields of `Game`; each state
    update and each timer callback becomes a method that the UI layer calls
    explicitly. `Date.now()` is the parameter `now` (milliseconds), the
    0.1-second interval is a tick counter, and the board's measured size and
    `Math.random()` are parameters of `CompleteInit`. */
module NumberSequenceGame {
  import opened Optional
  import opened GameUtils

  /** The game's phase (`gameState`). */
  datatype Phase = Idle | Loading | Playing | GameOver | AllCleared

  /** A copy of a clicked circle shown while it fades out; `isWrong` marks the
      click that ended the game (the source leaves the flag absent, that is
      false, on correct clicks). */
  datatype FadingCircle = FadingCircle(circle: Circle, clickTime: int, isWrong: bool)

  /** How long a fading circle stays, in milliseconds. */
  const FadeDuration: int := 3000
  /** Bounds of the point-count input. */
  const MinPoints: int := 1
  const MaxPoints: int := 5000
  /** Point counts above this show the loading phase while circles are generated. */
  const LoadingThreshold: int := 500

  /** `handleInputChange` (lines 137-140): `parseInt(value) || 0`, clamped into
      [1, 5000]. `parsed` is the result of `parseInt`; None stands for NaN. */
  function ClampPoints(parsed: Option<int>): (n: int)
    ensures MinPoints <= n <= MaxPoints
    ensures parsed.Some? && MinPoints <= parsed.value <= MaxPoints ==> n == parsed.value
    ensures (parsed.None? || parsed.value < MinPoints) ==> n == MinPoints
    ensures parsed.Some? && parsed.value > MaxPoints ==> n == MaxPoints
  {
    var value := parsed.GetOr(0);
    var capped := if value < MaxPoints then value else MaxPoints;
    if capped > MinPoints then capped else MinPoints
  }

  /** Clamping an already clamped count changes nothing. */
  lemma ClampIdempotent(parsed: Option<int>)
    ensures ClampPoints(Some(ClampPoints(parsed))) == ClampPoints(parsed)
  {
  }

  /** The circles of a game: circle i sits at index i - 1 and has `id == number == i`. */
  predicate Sequenced(circles: seq<Circle>)
  {
    forall i :: 0 <= i < |circles| ==> circles[i].id == i + 1 && circles[i].number == i + 1
  }

  /** The circle with a given id, if any (the click handler's target). */
  function FindById(circles: seq<Circle>, id: int): (r: Option<Circle>)
    ensures r.Some? ==> r.value in circles && r.value.id == id
    ensures r.None? ==> forall c :: c in circles ==> c.id != id
  {
    if circles == [] then None
    else if circles[0].id == id then Some(circles[0])
    else FindById(circles[1..], id)
  }

  /** In a sequenced game, the lookup by id finds circle `id` when there is one. */
  lemma FindByIdInOrder(circles: seq<Circle>, id: int)
    requires Sequenced(circles)
    ensures FindById(circles, id) == if 1 <= id <= |circles| then Some(circles[id - 1]) else None
  {
    var r := FindById(circles, id);
    if r.Some? {
      SequencedMember(circles, r.value);
    }
  }

  /** The auto-play lookup (line 102): the first unclicked circle numbered `n`. */
  function FindNext(circles: seq<Circle>, n: int): (r: Option<Circle>)
    ensures r.Some? ==> r.value in circles && r.value.number == n && !r.value.clicked
    ensures r.None? ==> forall c :: c in circles ==> c.number != n || c.clicked
  {
    if circles == [] then None
    else if circles[0].number == n && !circles[0].clicked then Some(circles[0])
    else FindNext(circles[1..], n)
  }

  /** In a sequenced game the circle with id (or number) i is the one at index i - 1. */
  lemma SequencedMember(circles: seq<Circle>, c: Circle)
    requires Sequenced(circles) && c in circles
    ensures 1 <= c.id <= |circles| && c.number == c.id && circles[c.id - 1] == c
  {
  }

  /** In a game whose circles below n are exactly the clicked ones, the
      auto-play lookup for n finds circle n. */
  lemma FindNextInOrder(circles: seq<Circle>, n: int)
    requires Sequenced(circles) && 1 <= n <= |circles|
    requires forall i :: 0 <= i < |circles| ==> (circles[i].clicked <==> circles[i].number < n)
    ensures FindNext(circles, n) == Some(circles[n - 1])
  {
    assert circles[n - 1] in circles;
    var r := FindNext(circles, n);
    if r.Some? {
      SequencedMember(circles, r.value);
    }
  }

  /** The correct-click update (lines 63-67): the circle whose id matches is
      marked clicked, every other circle is kept as it was, in place. */
  function MarkClicked(circles: seq<Circle>, id: int): (r: seq<Circle>)
    ensures |r| == |circles|
    ensures forall i :: 0 <= i < |circles| && circles[i].id == id ==> r[i] == circles[i].(clicked := true)
    ensures forall i :: 0 <= i < |circles| && circles[i].id != id ==> r[i] == circles[i]
  {
    if circles == [] then []
    else
      var head := if circles[0].id == id then circles[0].(clicked := true) else circles[0];
      [head] + MarkClicked(circles[1..], id)
  }

  /** Marking the expected circle clicked extends the clicked prefix by one
      and keeps the numbering. */
  lemma MarkClickedAdvances(circles: seq<Circle>, n: int)
    requires Sequenced(circles) && 1 <= n <= |circles|
    requires forall i :: 0 <= i < |circles| ==> (circles[i].clicked <==> circles[i].number < n)
    ensures var r := MarkClicked(circles, n);
            && Sequenced(r)
            && (forall i :: 0 <= i < |r| ==> (r[i].clicked <==> r[i].number < n + 1))
  {
    var r := MarkClicked(circles, n);
    forall i | 0 <= i < |r|
      ensures r[i].id == i + 1 && r[i].number == i + 1
      ensures r[i].clicked <==> r[i].number < n + 1
    {
      if circles[i].id == n {
        assert r[i] == circles[i].(clicked := true);
      } else {
        assert r[i] == circles[i];
      }
    }
  }

  /** The reaper's test (line 120): younger than the fade duration. */
  predicate StillFading(f: FadingCircle, now: int)
  {
    now - f.clickTime < FadeDuration
  }

  /** The reaper's filter (lines 119-121): keeps the entries still fading, in order. */
  function ReapFading(fading: seq<FadingCircle>, now: int): (r: seq<FadingCircle>)
    ensures forall f :: f in r <==> f in fading && StillFading(f, now)
    ensures forall f :: multiset(r)[f] == if StillFading(f, now) then multiset(fading)[f] else 0
    ensures IsSubsequence(r, fading)
  {
    if fading == [] then []
    else
      assert fading == [fading[0]] + fading[1..];
      var rest := ReapFading(fading[1..], now);
      if StillFading(fading[0], now) then [fading[0]] + rest else rest
  }

  /** Reaping at one time and again at a later time is the same as reaping
      once at the later time: an entry that has faded never comes back. */
  lemma {:induction false} ReapLater(fading: seq<FadingCircle>, now: int, later: int)
    requires now <= later
    ensures ReapFading(ReapFading(fading, now), later) == ReapFading(fading, later)
  {
    if fading != [] {
      var rest := ReapFading(fading[1..], now);
      ReapLater(fading[1..], now, later);
      if StillFading(fading[0], now) {
        assert ([fading[0]] + rest)[1..] == rest;
      }
    }
  }

  /** One instance of the game component. */
  class Game {
    /** The requested number of circles (`points`). */
    var points: int
    var gameState: Phase
    var circles: seq<Circle>
    /** The number the player must click next. */
    var nextNumber: int
    /** `elapsedTime` in tenths of a second. */
    var elapsedTicks: nat
    /** Whether the 0.1-second interval is set. */
    var timerRunning: bool
    var autoPlay: bool
    var fadingCircles: seq<FadingCircle>

    /** The game's invariant: circles numbered 1..n, exactly those below
        `nextNumber` clicked, a playing game still has a circle to click, a
        cleared game has clicked them all, and the interval runs only while a
        game is playing or being set up. */
    ghost predicate Valid()
      reads this
    {
      && MinPoints <= points <= MaxPoints
      && Sequenced(circles)
      && 1 <= nextNumber <= |circles| + 1
      && (forall i :: 0 <= i < |circles| ==> (circles[i].clicked <==> circles[i].number < nextNumber))
      && (gameState == Playing ==> |circles| == points && nextNumber <= |circles|)
      && (gameState == AllCleared ==> nextNumber == |circles| + 1)
      && (timerRunning ==> gameState == Playing || gameState == Loading)
    }

    /** The initial state (lines 8-14). */
    constructor ()
      ensures Valid()
      ensures points == 5 && gameState == Idle && circles == [] && nextNumber == 1
      ensures elapsedTicks == 0 && !timerRunning && !autoPlay && fadingCircles == []
    {
      points := 5;
      gameState := Idle;
      circles := [];
      nextNumber := 1;
      elapsedTicks := 0;
      timerRunning := false;
      autoPlay := false;
      fadingCircles := [];
    }

    /** The synchronous half of `initGame` (lines 33-35): large games show the
        loading phase until the circles are generated. */
    method BeginInit()
      requires Valid()
      modifies this
      ensures Valid()
      ensures gameState == (if points > LoadingThreshold then Loading else old(gameState))
      ensures circles == old(circles) && nextNumber == old(nextNumber) && points == old(points)
      ensures elapsedTicks == old(elapsedTicks) && timerRunning == old(timerRunning)
      ensures autoPlay == old(autoPlay) && fadingCircles == old(fadingCircles)
    {
      if points > LoadingThreshold {
        gameState := Loading;
      }
    }

    /** The animation-frame half of `initGame` (lines 39-52): installs freshly
        generated circles and starts a new game with the interval restarted.
        The circles keep every guarantee of `GenerateCircles`: its draw
        history, the spacing of accepted circles and, on a board with room,
        their place on the padded board. */
    method CompleteInit(boardWidth: nat, boardHeight: nat, random: nat -> Sample)
      requires Valid()
      modifies this
      ensures Valid()
      ensures gameState == Playing && nextNumber == 1 && elapsedTicks == 0
      ensures fadingCircles == [] && !autoPlay && timerRunning && points == old(points)
      ensures |circles| == points && Numbered(circles)
      ensures exists accepted: seq<bool>, starts: seq<nat>, tries: seq<nat>, draws: nat ::
                var l := LayoutFor(points, boardWidth, boardHeight);
                && Sampled(l, circles, accepted, random, starts, tries, draws)
                && Spaced(l, circles, accepted)
                && PlacedInside(l, circles)
    {
      var generated, accepted, starts, tries, draws := GenerateCircles(points, boardWidth, boardHeight, random);
      circles := generated;
      nextNumber := 1;
      elapsedTicks := 0;
      fadingCircles := [];
      gameState := Playing;
      autoPlay := false;
      timerRunning := true;
    }

    /** `handleCircleClick` (lines 58-93) on the circle with the given id, at
        time `now`. Outside `Playing`, for an unknown id or an already clicked
        circle nothing changes. The expected circle is marked clicked, the
        expected number advances by one, a fading copy is appended, and the
        game is cleared once the number passes the point count. Any other
        circle ends the game and is appended as a wrong fading copy. */
    method HandleCircleClick(id: int, now: int)
      requires Valid()
      modifies this
      ensures Valid()
      ensures points == old(points) && elapsedTicks == old(elapsedTicks) && autoPlay == old(autoPlay)
      ensures |circles| == |old(circles)| && nextNumber >= old(nextNumber)
      ensures var target := FindById(old(circles), id);
              old(gameState) != Playing || target.None? || target.value.clicked ==> unchanged(this)
      ensures var target := FindById(old(circles), id);
              old(gameState) == Playing && target.Some? && !target.value.clicked && target.value.number == old(nextNumber) ==>
                && circles == MarkClicked(old(circles), id)
                && nextNumber == old(nextNumber) + 1
                && fadingCircles == old(fadingCircles) + [FadingCircle(target.value, now, false)]
                && gameState == (if old(nextNumber) + 1 > points then AllCleared else Playing)
                && timerRunning == (old(timerRunning) && old(nextNumber) + 1 <= points)
      ensures var target := FindById(old(circles), id);
              old(gameState) == Playing && target.Some? && !target.value.clicked && target.value.number != old(nextNumber) ==>
                && gameState == GameOver && !timerRunning
                && circles == old(circles) && nextNumber == old(nextNumber)
                && fadingCircles == old(fadingCircles) + [FadingCircle(target.value, now, true)]
    {
      if gameState != Playing {
        return;
      }
      FindByIdInOrder(circles, id);
      var target := FindById(circles, id);
      if target.None? || target.value.clicked {
        return;
      }
      if target.value.number == nextNumber {
        ClickExpected(target.value, now);
      } else {
        ClickWrong(target.value, now);
      }
    }

    /** The correct-sequence branch of `handleCircleClick` (lines 61-81). */
    method ClickExpected(circle: Circle, now: int)
      requires Valid() && gameState == Playing
      requires circle in circles && !circle.clicked && circle.number == nextNumber
      modifies this
      ensures Valid()
      ensures circles == MarkClicked(old(circles), circle.id)
      ensures nextNumber == old(nextNumber) + 1
      ensures fadingCircles == old(fadingCircles) + [FadingCircle(circle, now, false)]
      ensures gameState == (if old(nextNumber) + 1 > points then AllCleared else Playing)
      ensures timerRunning == (old(timerRunning) && old(nextNumber) + 1 <= points)
      ensures points == old(points) && elapsedTicks == old(elapsedTicks) && autoPlay == old(autoPlay)
    {
      SequencedMember(circles, circle);
      var expected := nextNumber;
      MarkClickedAdvances(circles, expected);
      circles := MarkClicked(circles, circle.id);
      nextNumber := nextNumber + 1;
      fadingCircles := fadingCircles + [FadingCircle(circle, now, false)];
      if expected + 1 > points {
        gameState := AllCleared;
        timerRunning := false;
      }
    }

    /** The wrong-sequence branch of `handleCircleClick` (lines 82-92). */
    method ClickWrong(circle: Circle, now: int)
      requires Valid()
      modifies this
      ensures Valid()
      ensures gameState == GameOver && !timerRunning
      ensures fadingCircles == old(fadingCircles) + [FadingCircle(circle, now, true)]
      ensures circles == old(circles) && nextNumber == old(nextNumber)
      ensures points == old(points) && elapsedTicks == old(elapsedTicks) && autoPlay == old(autoPlay)
    {
      gameState := GameOver;
      timerRunning := false;
      fadingCircles := fadingCircles + [FadingCircle(circle, now, true)];
    }

    /** The auto-play timeout (lines 100-106): while playing with auto-play on,
        clicks the unclicked circle numbered `nextNumber`. It always finds
        one, so it always takes the correct-click branch: the game advances
        and never ends in `GameOver`. */
    method AutoPlayStep(now: int)
      requires Valid()
      modifies this
      ensures Valid()
      ensures !(old(gameState) == Playing && old(autoPlay)) ==> unchanged(this)
      ensures old(gameState) == Playing && old(autoPlay) ==>
                && nextNumber == old(nextNumber) + 1
                && circles == MarkClicked(old(circles), old(nextNumber))
                && circles[old(nextNumber) - 1].clicked
                && fadingCircles == old(fadingCircles) + [FadingCircle(old(circles)[old(nextNumber) - 1], now, false)]
                && gameState == (if old(nextNumber) + 1 > points then AllCleared else Playing)
                && timerRunning == (old(timerRunning) && old(nextNumber) + 1 <= points)
                && points == old(points) && elapsedTicks == old(elapsedTicks) && autoPlay == old(autoPlay)
    {
      if gameState == Playing && autoPlay {
        FindNextInOrder(circles, nextNumber);
        FindByIdInOrder(circles, nextNumber);
        var next := FindNext(circles, nextNumber);
        if next.Some? {
          HandleCircleClick(next.value.id, now);
        }
      }
    }

    /** The reaper timeout (lines 117-122): drops the fading circles at least
        `FadeDuration` old at time `now`. */
    method Reap(now: int)
      requires Valid()
      modifies this
      ensures Valid()
      ensures fadingCircles == ReapFading(old(fadingCircles), now)
      ensures gameState == old(gameState) && circles == old(circles) && nextNumber == old(nextNumber)
      ensures points == old(points) && elapsedTicks == old(elapsedTicks)
      ensures timerRunning == old(timerRunning) && autoPlay == old(autoPlay)
    {
      fadingCircles := ReapFading(fadingCircles, now);
    }

    /** The interval callback (lines 50-52): one tick while the interval is set. */
    method Tick()
      requires Valid()
      modifies this
      ensures Valid()
      ensures elapsedTicks == if old(timerRunning) then old(elapsedTicks) + 1 else old(elapsedTicks)
      ensures gameState == old(gameState) && circles == old(circles) && nextNumber == old(nextNumber)
      ensures points == old(points) && timerRunning == old(timerRunning)
      ensures autoPlay == old(autoPlay) && fadingCircles == old(fadingCircles)
    {
      if timerRunning {
        elapsedTicks := elapsedTicks + 1;
      }
    }

    /** `toggleAutoPlay` (line 143). */
    method ToggleAutoPlay()
      requires Valid()
      modifies this
      ensures Valid()
      ensures autoPlay == !old(autoPlay)
      ensures gameState == old(gameState) && circles == old(circles) && nextNumber == old(nextNumber)
      ensures points == old(points) && elapsedTicks == old(elapsedTicks)
      ensures timerRunning == old(timerRunning) && fadingCircles == old(fadingCircles)
    {
      autoPlay := !autoPlay;
    }

    /** `handleInputChange` (lines 137-140). The input is disabled while a game
        is playing (src/components/GameControls.js:24). */
    method SetPoints(parsed: Option<int>)
      requires Valid() && gameState != Playing
      modifies this
      ensures Valid()
      ensures points == ClampPoints(parsed)
      ensures gameState == old(gameState) && circles == old(circles) && nextNumber == old(nextNumber)
      ensures elapsedTicks == old(elapsedTicks) && timerRunning == old(timerRunning)
      ensures autoPlay == old(autoPlay) && fadingCircles == old(fadingCircles)
    {
      points := ClampPoints(parsed);
    }

    /** A cleared game has every circle clicked. */
    lemma AllClearedAllClicked()
      requires Valid() && gameState == AllCleared
      ensures forall i :: 0 <= i < |circles| ==> circles[i].clicked
    {
    }
  }

  /** Clicking the expected circle again and again, from any point of a game
      being played, clears it with every circle clicked. */
  method ClickAllInOrder(g: Game, now: int)
    requires g.Valid() && g.gameState == Playing
    modifies g
    ensures g.Valid() && g.gameState == AllCleared
    ensures forall i :: 0 <= i < |g.circles| ==> g.circles[i].clicked
  {
    while g.gameState == Playing
      invariant g.Valid() && (g.gameState == Playing || g.gameState == AllCleared)
      decreases |g.circles| + 1 - g.nextNumber
    {
      SequencedMember(g.circles, g.circles[g.nextNumber - 1]);
      g.HandleCircleClick(g.nextNumber, now);
    }
    g.AllClearedAllClicked();
  }
}
