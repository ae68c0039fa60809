/**
 * One game session as a value (star, food, score, lives, game-over flag) and
 * the per-frame rules of the main loop: key events, the simulation step with
 * its wall / self / food checks in that order, and respawn completion. The
 * clock reading `now` and the random food cells are inputs.
 */
module Session {
  import opened Grid
  import Trail
  import Food
  import opened StarTrail

  /** The input events the loop distinguishes. */
  datatype Event = Quit | KeyDown(key: Key) | OtherEvent

  datatype SessionState = SessionState(
    star: StarState,
    food: Cell,
    score: nat,
    lives: int,
    gameOver: bool)

  /** A fresh session: new star, score 0, two lives; the food is not checked against the trail. */
  function NewSession(food: Cell): (r: SessionState)
    ensures Playing(r) && r.score == 0 && r.lives == 2 && r.food == food
    ensures r.star.positions == [Cell(10, 10)] && r.star.direction == Cell(1, 0)
  {
    SessionState(NewStar(), food, 0, StartingLives, false)
  }

  /** Neither over nor respawning: the star moves and is collision-checked. */
  predicate Playing(g: SessionState)
  {
    !g.gameOver && !g.star.isRespawning
  }

  /**
   * What holds of every session the loop reaches. Food need not be off the
   * trail: only the placement after eating checks the trail.
   */
  predicate Invariant(g: SessionState)
  {
    && WellFormed(g.star)
    && OnBoard(g.food)
    && 0 <= g.lives <= StartingLives
    && (g.lives == 0 ==> g.gameOver)
    && !(g.gameOver && g.star.isRespawning)
    && (Playing(g) ==> AllOnBoard(g.star.positions) && Trail.Distinct(g.star.positions))
    && |g.star.positions| + (if g.star.addSegment then 1 else 0) <= g.score + 1
  }

  // ---------------------------------------------------------------- input

  /** One key-down event; `draw` is the food cell a restart would pick. */
  function AfterKey(g: SessionState, k: Key, draw: Cell): (r: SessionState)
    ensures g.gameOver ==> r == if k == Space then NewSession(draw) else g
    ensures !g.gameOver ==> r.(star := g.star) == g && r.star.(direction := g.star.direction) == g.star
    ensures !g.gameOver && g.star.isRespawning ==> r == g
    ensures Playing(g) && IsArrow(k) && KeyHeading(k) != Opposite(g.star.direction) ==>
      r.star.direction == KeyHeading(k)
    ensures Playing(g) && !(IsArrow(k) && KeyHeading(k) != Opposite(g.star.direction)) ==> r == g
  {
    if g.gameOver then
      if k == Space then NewSession(draw) else g
    else if !g.star.isRespawning then
      g.(star := g.star.(direction := Turn(g.star.direction, k)))
    else g
  }

  /** The events of one frame, up to the first Quit. */
  function AfterEvents(g: SessionState, events: seq<Event>, draw: Cell): (r: SessionState)
    ensures r.star.positions == g.star.positions || r.star.positions == [Center]
    ensures !g.gameOver ==> r.(star := g.star) == g && r.star.(direction := g.star.direction) == g.star
    ensures g.gameOver ==> r == g || (Playing(r) && r.score == 0 && r.lives == StartingLives &&
                                      r.star.positions == [Center] && r.food == draw)
    decreases |events|
  {
    if events == [] then g
    else match events[0]
      case Quit => g
      case KeyDown(k) => AfterEvents(AfterKey(g, k, draw), events[1..], draw)
      case OtherEvent => AfterEvents(g, events[1..], draw)
  }

  // ----------------------------------------------------------- simulation

  /** The move, then the wall check, finds the head on the board, off the rest of the trail, on the food. */
  predicate Eats(g: SessionState)
    requires |g.star.positions| > 0
  {
    && Playing(g)
    && var s := Moved(g.star);
    && OnBoard(s.positions[0])
    && !Trail.HitsSelf(s.positions)
    && s.positions[0] == g.food
  }

  /** The random draws contain a free cell whenever the step eats. */
  predicate DrawsSuffice(g: SessionState, draws: seq<Cell>)
    requires |g.star.positions| > 0
  {
    Eats(g) ==> Food.HasFree(draws, Moved(g.star).positions)
  }

  /** The simulation step of one frame: move, then wall, self and food checks. */
  function AfterStep(g: SessionState, now: int, draws: seq<Cell>): (r: SessionState)
    requires |g.star.positions| > 0
    requires DrawsSuffice(g, draws)
    ensures !Playing(g) ==> r == g
    ensures r.lives != g.lives <==> Playing(g) && !OnBoard(Moved(g.star).positions[0])
    ensures r.lives == g.lives || r.lives == g.lives - 1
    ensures r.score != g.score <==> Eats(g)
    ensures r.score == g.score || r.score == g.score + 1
    ensures r.food != g.food ==> Eats(g) && r.food !in r.star.positions && r.food in draws
    ensures r.gameOver != g.gameOver ==> !r.star.isRespawning
  {
    if !Playing(g) then g
    else
      var s := Moved(g.star);
      var head := s.positions[0];
      if !OnBoard(head) then
        if g.lives - 1 > 0 then g.(star := RespawnStarted(s, now), lives := g.lives - 1)
        else g.(star := s, lives := g.lives - 1, gameOver := true)
      else if Trail.HitsSelf(s.positions) then g.(star := s, gameOver := true)
      else if head == g.food then
        g.(star := Grown(s), score := g.score + 1, food := Food.FirstFree(draws, s.positions))
      else g.(star := s)
  }

  /** The respawn check at the end of every frame; `draw` is the new food cell. */
  function AfterRespawnCheck(g: SessionState, now: int, draw: Cell): (r: SessionState)
    ensures r.score == g.score && r.lives == g.lives && r.gameOver == g.gameOver
    ensures !RespawnDue(g.star, now) ==> r == g
    ensures RespawnDue(g.star, now) ==>
      !r.star.isRespawning && r.star.positions == [Center] && r.food == draw
    ensures !RespawnDue(r.star, now)
  {
    if RespawnDue(g.star, now) then g.(star := RespawnChecked(g.star, now), food := draw) else g
  }

  /** A whole frame; after a Quit nothing else happens. */
  function AfterFrame(g: SessionState, events: seq<Event>, restartDraw: Cell, now: int,
                      foodDraws: seq<Cell>, respawnDraw: Cell): (r: SessionState)
    requires |g.star.positions| > 0
    requires DrawsSuffice(AfterEvents(g, events, restartDraw), foodDraws)
    ensures !g.gameOver ==> g.score <= r.score <= g.score + 1 && g.lives - 1 <= r.lives <= g.lives
    ensures g.gameOver ==> r.score == g.score || r.score <= 1
    ensures Quit in events ==> r.score == g.score || r.score == 0
  {
    var g1 := AfterEvents(g, events, restartDraw);
    if Quit in events then g1
    else AfterRespawnCheck(AfterStep(g1, now, foodDraws), now, respawnDraw)
  }

  // ------------------------------------------------------------ lemmas

  /** Start and restart: score 0, two lives, not over, a fresh centred star. */
  lemma NewSessionIsFresh(food: Cell)
    requires OnBoard(food)
    ensures var g := NewSession(food);
      Invariant(g) && g.score == 0 && g.lives == 2 && !g.gameOver && Playing(g) &&
      g.star.positions == [Center] && g.food == food
  {
  }

  /**
   * Only the placement after eating looks at the trail: the start and the
   * restart may put the food on the star.
   */
  lemma FoodMayStartOnTrail()
    ensures NewSession(Center).food in NewSession(Center).star.positions
  {
  }

  /** The food drawn after a respawn is not checked against the trail either. */
  lemma RespawnFoodMayLandOnTrail(g: SessionState, now: int)
    requires RespawnDue(g.star, now)
    ensures AfterRespawnCheck(g, now, Center).food in AfterRespawnCheck(g, now, Center).star.positions
  {
  }

  /** While over, a Space key restarts; any other key does nothing. */
  lemma RestartOnSpace(g: SessionState, k: Key, draw: Cell)
    requires g.gameOver
    ensures AfterKey(g, k, draw) == if k == Space then NewSession(draw) else g
  {
  }

  /** A key asking for the exact reverse heading leaves the session as it was. */
  lemma ReverseKeyIgnored(g: SessionState, k: Key, draw: Cell)
    requires Playing(g) && IsArrow(k) && KeyHeading(k) == Opposite(g.star.direction)
    ensures AfterKey(g, k, draw) == g
  {
    assert g.star.(direction := g.star.direction) == g.star;
  }

  /** While respawning no event of a frame changes anything. */
  lemma {:induction false} KeysIgnoredWhileRespawning(g: SessionState, events: seq<Event>, draw: Cell)
    requires !g.gameOver && g.star.isRespawning
    ensures AfterEvents(g, events, draw) == g
    decreases |events|
  {
    if events != [] && events[0] != Quit {
      KeysIgnoredWhileRespawning(g, events[1..], draw);
    }
  }

  /** While over, a frame without Space changes nothing: arrow keys are ignored. */
  lemma {:induction false} ArrowsIgnoredWhileOver(g: SessionState, events: seq<Event>, draw: Cell)
    requires g.gameOver
    requires forall i :: 0 <= i < |events| ==> events[i] != KeyDown(Space)
    ensures AfterEvents(g, events, draw) == g
    decreases |events|
  {
    if events != [] && events[0] != Quit {
      ArrowsIgnoredWhileOver(g, events[1..], draw);
    }
  }

  /**
   * The reverse check compares each key with the current heading, not with
   * the heading of the last move: two keys in one frame (up, then left) turn
   * an eastbound star west, and a star of three or more cells whose second
   * cell lies just west of the head then runs into it on the next step.
   */
  lemma TwoKeysReverseInOneFrame(g: SessionState, now: int, draws: seq<Cell>, draw: Cell)
    requires Invariant(g) && Playing(g) && g.star.direction == East
    requires |g.star.positions| >= 3 && g.star.positions[1] == Add(g.star.positions[0], West)
    ensures var g1 := AfterEvents(g, [KeyDown(Up), KeyDown(Left)], draw);
      g1.star.direction == Opposite(g.star.direction) &&
      DrawsSuffice(g1, draws) && AfterStep(g1, now, draws).gameOver
  {
    var events := [KeyDown(Up), KeyDown(Left)];
    assert events[1..][1..] == [];
    var g1 := AfterEvents(g, events, draw);
    assert g1 == g.(star := g.star.(direction := West));
    var s := Moved(g1.star);
    Trail.ReversalHitsNeck(g1.star.positions, West, g1.star.addSegment);
    assert OnBoard(s.positions[0]) by {
      assert s.positions[0] == g.star.positions[1];
    }
  }

  /** When over or respawning the step leaves the session untouched. */
  lemma StepFrozenUnlessPlaying(g: SessionState, now: int, draws: seq<Cell>)
    requires |g.star.positions| > 0 && !Playing(g)
    ensures DrawsSuffice(g, draws) && AfterStep(g, now, draws) == g
  {
  }

  /**
   * A head that leaves the board costs exactly one life; the star respawns
   * if lives remain and the game ends otherwise. Score and food stay.
   */
  lemma WallCollision(g: SessionState, now: int, draws: seq<Cell>)
    requires |g.star.positions| > 0 && Playing(g)
    requires !OnBoard(Add(g.star.positions[0], g.star.direction))
    ensures DrawsSuffice(g, draws)
    ensures var r := AfterStep(g, now, draws);
      && r.lives == g.lives - 1 && r.score == g.score && r.food == g.food
      && r.star.positions == Moved(g.star).positions
      && (r.lives > 0 ==> r.star.isRespawning && r.star.respawnStart == now && !r.gameOver)
      && (r.lives <= 0 ==> r.gameOver && !r.star.isRespawning)
  {
  }

  /** A head on another trail cell (after the tail moved on) ends the game. */
  lemma SelfCollision(g: SessionState, now: int, draws: seq<Cell>)
    requires |g.star.positions| > 0 && Playing(g)
    requires OnBoard(Add(g.star.positions[0], g.star.direction))
    requires Trail.HitsSelf(Moved(g.star).positions)
    ensures DrawsSuffice(g, draws)
    ensures var r := AfterStep(g, now, draws);
      r.gameOver && r.lives == g.lives && r.score == g.score && r.food == g.food &&
      r.star == Moved(g.star)
  {
  }

  /**
   * Eating schedules one growth, adds one point and moves the food to the
   * first drawn cell that is off the trail.
   */
  lemma FoodCollision(g: SessionState, now: int, draws: seq<Cell>)
    requires |g.star.positions| > 0 && Eats(g) && DrawsSuffice(g, draws)
    ensures var r := AfterStep(g, now, draws);
      && r.score == g.score + 1 && r.lives == g.lives && !r.gameOver
      && r.star.addSegment && r.star.positions == Moved(g.star).positions
      && r.food !in r.star.positions && r.food in draws
      && |Moved(r.star).positions| == |r.star.positions| + 1
  {
    var s := Moved(g.star);
    var k :| 0 <= k < |draws| && draws[k] == Food.FirstFree(draws, s.positions) &&
      forall j :: 0 <= j < k ==> draws[j] in s.positions;
  }

  /** A step with no collision and no food only moves the star. */
  lemma QuietStep(g: SessionState, now: int, draws: seq<Cell>)
    requires |g.star.positions| > 0 && Playing(g)
    requires OnBoard(Moved(g.star).positions[0])
    requires !Trail.HitsSelf(Moved(g.star).positions)
    requires Moved(g.star).positions[0] != g.food
    ensures DrawsSuffice(g, draws)
    ensures AfterStep(g, now, draws) == g.(star := Moved(g.star))
  {
  }

  /**
   * Respawn completion: once due, the star is centred and playing again and
   * the food is redrawn; otherwise nothing changes.
   */
  lemma RespawnCompletion(g: SessionState, now: int, draw: Cell)
    ensures var r := AfterRespawnCheck(g, now, draw);
      && r.score == g.score && r.lives == g.lives && r.gameOver == g.gameOver
      && (RespawnDue(g.star, now) ==>
            !r.star.isRespawning && r.star.positions == [Center] && r.food == draw)
      && (!RespawnDue(g.star, now) ==> r == g)
  {
  }

  /**
   * A wall hit with lives to spare: one life is gone and the star waits; the
   * respawn check does nothing before RespawnTime seconds and from then on
   * puts a centred star back in play with redrawn food, keeping the score.
   */
  lemma {:induction false} WallHitThenRespawn(g: SessionState, hit: int, later: int,
                                              draws: seq<Cell>, draw: Cell)
    requires Invariant(g) && Playing(g) && g.lives == StartingLives
    requires !OnBoard(Add(g.star.positions[0], g.star.direction))
    ensures DrawsSuffice(g, draws)
    ensures var r := AfterStep(g, hit, draws);
      && r.lives == 1 && r.star.isRespawning && !r.gameOver
      && (later < hit + RespawnTime ==> AfterRespawnCheck(r, later, draw) == r)
      && (later >= hit + RespawnTime ==>
            var b := AfterRespawnCheck(r, later, draw);
            Playing(b) && b.star.positions == [Center] && b.star.direction == East &&
            b.food == draw && b.lives == 1 && b.score == g.score)
  {
    WallCollision(g, hit, draws);
    var r := AfterStep(g, hit, draws);
    RespawnTimeline(Moved(g.star), hit, later);
    RespawnCompletion(r, later, draw);
  }

  /** A frame while over and without Space changes nothing at all. */
  lemma FrameFrozenWhileOver(g: SessionState, events: seq<Event>, restartDraw: Cell, now: int,
                             foodDraws: seq<Cell>, respawnDraw: Cell)
    requires Invariant(g) && g.gameOver
    requires forall i :: 0 <= i < |events| ==> events[i] != KeyDown(Space)
    ensures DrawsSuffice(AfterEvents(g, events, restartDraw), foodDraws)
    ensures AfterFrame(g, events, restartDraw, now, foodDraws, respawnDraw) == g
  {
    ArrowsIgnoredWhileOver(g, events, restartDraw);
  }

  // ------------------------------------------------ invariant preservation

  lemma KeyKeepsInvariant(g: SessionState, k: Key, draw: Cell)
    requires Invariant(g) && OnBoard(draw)
    ensures Invariant(AfterKey(g, k, draw))
  {
  }

  lemma {:induction false} EventsKeepInvariant(g: SessionState, events: seq<Event>, draw: Cell)
    requires Invariant(g) && OnBoard(draw)
    ensures Invariant(AfterEvents(g, events, draw))
    decreases |events|
  {
    if events != [] {
      match events[0]
      case Quit =>
      case KeyDown(k) =>
        KeyKeepsInvariant(g, k, draw);
        EventsKeepInvariant(AfterKey(g, k, draw), events[1..], draw);
      case OtherEvent =>
        EventsKeepInvariant(g, events[1..], draw);
    }
  }

  lemma StepKeepsInvariant(g: SessionState, now: int, draws: seq<Cell>)
    requires Invariant(g) && AllOnBoard(draws) && DrawsSuffice(g, draws)
    ensures Invariant(AfterStep(g, now, draws))
  {
    if Playing(g) {
      var s := Moved(g.star);
      var head := s.positions[0];
      MoveKeepsWellFormed(g.star);
      if g.star.addSegment {
        Trail.AdvanceGrows(g.star.positions, g.star.direction);
      } else {
        Trail.AdvanceShifts(g.star.positions, g.star.direction);
      }
      if OnBoard(head) && !Trail.HitsSelf(s.positions) {
        Trail.AdvanceKeepsDistinct(g.star.positions, g.star.direction, g.star.addSegment);
        Trail.AdvanceKeepsOnBoard(g.star.positions, g.star.direction, g.star.addSegment);
        if head == g.food {
          Food.FirstFreeOnBoard(draws, s.positions);
        }
      }
    }
  }

  lemma RespawnCheckKeepsInvariant(g: SessionState, now: int, draw: Cell)
    requires Invariant(g) && OnBoard(draw)
    ensures Invariant(AfterRespawnCheck(g, now, draw))
  {
  }

  /** Every frame keeps the session invariant. */
  lemma FrameKeepsInvariant(g: SessionState, events: seq<Event>, restartDraw: Cell, now: int,
                            foodDraws: seq<Cell>, respawnDraw: Cell)
    requires Invariant(g) && OnBoard(restartDraw) && OnBoard(respawnDraw) && AllOnBoard(foodDraws)
    requires DrawsSuffice(AfterEvents(g, events, restartDraw), foodDraws)
    ensures Invariant(AfterFrame(g, events, restartDraw, now, foodDraws, respawnDraw))
  {
    var g1 := AfterEvents(g, events, restartDraw);
    EventsKeepInvariant(g, events, restartDraw);
    StepKeepsInvariant(g1, now, foodDraws);
    RespawnCheckKeepsInvariant(AfterStep(g1, now, foodDraws), now, respawnDraw);
  }
}
