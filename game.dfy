/**
 * The main loop's state, lifted into a class: the star object, the food
 * cell, score, lives and the game-over flag. Each method performs one part of
 * a frame in place and is proved to agree with the session rules; Valid() is
 * the session invariant.
 */
module GameLoop {
  import opened Grid
  import Food
  import opened StarTrail
  import opened Session

  class Game {
    var star: Star
    var food: Cell
    var score: nat
    var lives: int
    var gameOver: bool

    function Snapshot(): SessionState
      reads this, star
    {
      SessionState(star.View(), food, score, lives, gameOver)
    }

    ghost predicate Valid()
      reads this, star
    {
      Invariant(Snapshot())
    }

    /** Program start; `firstFood` is the first random cell. */
    constructor (firstFood: Cell)
      requires OnBoard(firstFood)
      ensures Snapshot() == NewSession(firstFood) && Valid() && fresh(star)
    {
      star := new Star();
      food := firstFood;
      score := 0;
      lives := StartingLives;
      gameOver := false;
      new;
      NewSessionIsFresh(firstFood);
    }

    /** One key-down event; a restart takes `restartDraw` as its food. */
    method HandleKey(k: Key, restartDraw: Cell)
      requires Valid() && OnBoard(restartDraw)
      modifies this, star
      ensures Snapshot() == AfterKey(old(Snapshot()), k, restartDraw) && Valid()
      ensures star == old(star) || fresh(star)
    {
      if gameOver {
        if k == Space {
          star := new Star();
          food := restartDraw;
          score := 0;
          lives := StartingLives;
          gameOver := false;
        }
      } else if !star.isRespawning {
        if k == Up && star.direction != South {
          star.direction := North;
        } else if k == Down && star.direction != North {
          star.direction := South;
        } else if k == Left && star.direction != East {
          star.direction := West;
        } else if k == Right && star.direction != West {
          star.direction := East;
        }
      }
      KeyKeepsInvariant(old(Snapshot()), k, restartDraw);
    }

    /**
     * The simulation step: move, then the wall, self and food checks; eating
     * redraws the food from `draws` until a cell off the trail comes up.
     */
    method Step(now: int, draws: seq<Cell>)
      requires Valid() && AllOnBoard(draws) && DrawsSuffice(Snapshot(), draws)
      modifies this, star
      ensures Snapshot() == AfterStep(old(Snapshot()), now, draws) && Valid()
      ensures star == old(star)
    {
      ghost var g := Snapshot();
      if !gameOver && !star.isRespawning {
        star.Move();
        var head := star.positions[0];
        if head.x < 0 || head.x >= GridCount || head.y < 0 || head.y >= GridCount {
          lives := lives - 1;
          if lives > 0 {
            star.StartRespawn(now);
          } else {
            gameOver := true;
          }
        } else if head in star.positions[1..] {
          gameOver := true;
        } else if head == food {
          star.Grow();
          score := score + 1;
          food := Food.PlaceFood(draws, star.positions);
        }
      }
      StepKeepsInvariant(g, now, draws);
    }

    /** The end-of-frame respawn check; on completion the food is redrawn. */
    method CompleteRespawn(now: int, draw: Cell)
      requires Valid() && OnBoard(draw)
      modifies this, star
      ensures Snapshot() == AfterRespawnCheck(old(Snapshot()), now, draw) && Valid()
      ensures star == old(star)
    {
      ghost var g := Snapshot();
      var done := star.CheckRespawn(now);
      if done {
        food := draw;
      }
      RespawnCheckKeepsInvariant(g, now, draw);
    }

    /**
     * One frame: the pending events (a Quit ends the program at once), the
     * simulation step and the respawn check.
     */
    method Frame(events: seq<Event>, restartDraw: Cell, now: int,
                 foodDraws: seq<Cell>, respawnDraw: Cell) returns (quit: bool)
      requires Valid() && OnBoard(restartDraw) && OnBoard(respawnDraw) && AllOnBoard(foodDraws)
      requires DrawsSuffice(AfterEvents(Snapshot(), events, restartDraw), foodDraws)
      modifies this, star
      ensures quit == (Quit in events)
      ensures Snapshot() == AfterFrame(old(Snapshot()), events, restartDraw, now, foodDraws, respawnDraw)
      ensures Valid()
    {
      ghost var g := Snapshot();
      var i := 0;
      while i < |events|
        invariant 0 <= i <= |events|
        invariant Valid()
        invariant star == old(star) || fresh(star)
        invariant Quit !in events[..i]
        invariant AfterEvents(Snapshot(), events[i..], restartDraw) == AfterEvents(g, events, restartDraw)
      {
        if events[i] == Quit {
          return true;
        } else if events[i].KeyDown? {
          HandleKey(events[i].key, restartDraw);
        }
        assert events[..i + 1] == events[..i] + [events[i]];
        i := i + 1;
      }
      assert events[..i] == events;
      Step(now, foodDraws);
      CompleteRespawn(now, respawnDraw);
      return false;
    }
  }
}
