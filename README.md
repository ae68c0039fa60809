# Star trail game: a verified model of the simulation

This project models the simulation logic of the "Star Trail" snake game
(`snake_game.py`): the `Star` trail entity and the per-frame step of the
main loop, without any drawing, fonts or window handling.

- `grid.dfy` (module `Grid`): the 20 x 20 board (`600 // 30`), cells, the
  four headings, `RespawnTime = 3`, two starting lives, and `Turn`, the
  arrow-key rule that refuses the exact reverse of the current heading.
- `trail.dfy` (module `Trail`): the trail as a sequence of cells, head
  first. `Advance` is one move (new head in front; the tail cell is dropped
  unless a growth is pending). The lemmas cover length, shifting,
  distinctness, staying on the board, and the self-collision test that
  follows a move.
- `food.dfy` (module `Food`): food placement after eating. The random draws
  are given as a sequence; `PlaceFood` is the redraw loop and returns the
  first draw that is not on the trail (`FirstFree`).
- `star.dfy` (module `StarTrail`): `StarState`, the value of a star.
  `Reset`, `Moved`, `Grown`, `RespawnStarted`, `RespawnDue` and
  `RespawnChecked` say what each operation does. `class Star` carries the
  same fields and performs `reset_position`, `move`, `grow`,
  `start_respawn` and `check_respawn` in place. Each method is proved to
  produce the corresponding function of its old state.
- `session.dfy` (module `Session`): `SessionState` is (star, food, score,
  lives, game over). The per-frame rules are `AfterKey`/`AfterEvents`
  (input), `AfterStep` (move, then the wall, self and food checks, in that
  order), `AfterRespawnCheck` and `AfterFrame`. `Invariant` is what every
  reachable session satisfies. The lemmas state the collision outcomes and
  prove that every frame keeps the invariant.
- `game.dfy` (module `GameLoop`): `class Game` holds the local variables of
  `main` as fields. `HandleKey`, `Step`, `CompleteRespawn` and `Frame`
  update them in place, and each is proved to agree with the session rules.

The clock is an integer parameter `now` in seconds. The random cells are
parameters: `restartDraw` for a restart, `foodDraws` for the redraw loop
after eating, and `respawnDraw` after a respawn.

Session invariant (`Session.Invariant`, kept by every frame):
- the trail is non-empty;
- the heading is a unit heading;
- the rotation is in [0, 360);
- the food is on the board;
- lives are between 0 and 2, and 0 lives means the game is over;
- the game is never over and respawning at once;
- while playing, the trail lies on the board and has no repeated cell;
- trail length plus pending growth never exceeds score + 1.

Two properties of the code that the model keeps as written:
- Only the placement after eating (lines 151-153) checks the food against
  the trail. The first food (line 97), the food after a restart (line 115)
  and the food after a respawn (line 157) are drawn without that check. So
  the invariant does not claim that the food is off the trail, and
  `FoodMayStartOnTrail` and `RespawnFoodMayLandOnTrail` exhibit food on the
  trail.
- Each arrow key is compared with the heading as already changed by earlier
  keys of the same frame (lines 121-128). So "up, then left" in one frame
  turns an eastbound star west, and a long enough star then runs into itself
  (`TwoKeysReverseInOneFrame`).

## Model

| member | source | states |
|---|---|---|
| `Grid.Turn` | snake_game.py:120-128 | an arrow key sets its heading unless that heading is the exact opposite of the current one; a refused or non-arrow key keeps the heading; a unit heading stays a unit heading and never becomes its own reverse |
| `Trail.Advance` | snake_game.py:39-48 | the moved trail is one longer with pending growth and as long otherwise; its head is old head + heading; each later cell is the old cell one place earlier |
| `Trail.AdvanceShifts` | snake_game.py:46-48 | without growth the new trail is the new head followed by the old trail minus its last cell |
| `Trail.AdvanceGrows` | snake_game.py:43-45 | with growth the new trail is the new head followed by the whole old trail |
| `Trail.AdvanceKeepsDistinct` | snake_game.py:39-48 | a trail with no repeated cell keeps that property after a move whose head is not found in the rest of the trail |
| `Trail.AdvanceKeepsOnBoard` | snake_game.py:39-48 | if every cell is on the board and the new head is on the board, the moved trail is on the board |
| `Trail.FollowingTheTailIsSafe` | snake_game.py:131-145 | the tail is popped before the self check, so a head that moves onto the old tail cell of a distinct trail is no self-collision |
| `Trail.ReversalHitsNeck` | snake_game.py:131-145 | moving back onto the cell behind the head is a self-collision when the trail grows or has at least three cells |
| `Trail.ShortReversalIsSafe` | snake_game.py:131-145 | a two-cell trail without growth that reverses just swaps its two cells and does not collide |
| `Trail.HitsSelf` | snake_game.py:144 | the head hits the trail exactly when some later cell equals the head (`FollowingTheTailIsSafe`, `ReversalHitsNeck`, `ShortReversalIsSafe`) |
| `Food.FirstFree` | snake_game.py:151-153 | the placed food is off the trail and is a draw all of whose predecessors lie on the trail |
| `Food.FirstFreeAt` | snake_game.py:151-153 | the placement is exactly the draw at the first index that is off the trail |
| `Food.FirstFreeOnBoard` | snake_game.py:151-153 | draws from `randint(0, GRID_COUNT-1)` lie on the board, and so does the placed food |
| `Food.PlaceFood` | snake_game.py:151-153 | the redraw loop stops at the first draw off the trail and returns it |
| `StarTrail.NewStar` | snake_game.py:23-28 | a new star is well formed: one cell at (10,10), heading (1,0), no growth pending, not respawning, respawn start 0, rotation 0 (`NewStarIsCentred`) |
| `StarTrail.Reset` | snake_game.py:30-33 | the trail becomes the single cell (10,10), the heading (1,0), no growth pending; every other field is kept; a star with rotation in [0, 360) is well formed afterwards (`ResetCentres`) |
| `StarTrail.Moved` | snake_game.py:35-51 | while respawning nothing changes; otherwise the trail grows by one exactly when growth was pending, the head is old head + heading, every later cell is the old cell one place earlier, the flag is cleared and the rotation stays in [0, 360); heading and respawn fields never change (`MoveWithoutGrowth`, `MoveWithGrowth`, `MoveWhileRespawning`, `MoveKeepsWellFormed`) |
| `StarTrail.Grown` | snake_game.py:62-63 | only the growth flag changes, and it is set (`GrowOnlyMarks`) |
| `StarTrail.RespawnStarted` | snake_game.py:65-67 | only the respawn flag and start time change; the respawn is not due 2 seconds later and is due 3 seconds later (`RespawnTimeline`) |
| `StarTrail.RespawnChecked` | snake_game.py:69-74 | when `RespawnDue` is false nothing changes; when it is true the star stops respawning and is reset to (10,10) heading (1,0), keeping start time and rotation; afterwards the respawn is never due at the same time (`RespawnCheck`) |
| `StarTrail.NewStarIsCentred` | snake_game.py:23-33 | a new star is one cell at (10,10), heading (1,0), no growth pending, not respawning, rotation 0 |
| `StarTrail.ResetCentres` | snake_game.py:30-33 | reset leaves exactly the cell (10,10), heading (1,0) and no pending growth, and keeps the respawn fields |
| `StarTrail.MoveWithoutGrowth` | snake_game.py:39-48 | without growth a move keeps the length; the head is old head + heading; the rest is the old trail minus its last cell |
| `StarTrail.MoveWithGrowth` | snake_game.py:43-45 | with growth a move adds exactly one cell, keeps every old cell after the new head and clears the flag, so the following move keeps the length |
| `StarTrail.MoveWhileRespawning` | snake_game.py:35-37 | a move while respawning changes nothing |
| `StarTrail.MoveKeepsWellFormed` | snake_game.py:35-51 | after a move the trail is non-empty, the heading is unchanged and the rotation is in [0, 360) |
| `StarTrail.GrowOnlyMarks` | snake_game.py:62-63 | grow sets the growth flag and changes nothing else; the trail is untouched |
| `StarTrail.RespawnCheck` | snake_game.py:69-74 | check_respawn is true exactly when respawning and at least 3 seconds have passed; otherwise nothing changes; when true the star is reset and no longer respawning, so any later call is false |
| `StarTrail.RespawnTimeline` | snake_game.py:65-74 | a respawn started at time t completes exactly at every time >= t + 3 |
| `StarTrail.Star.constructor` | snake_game.py:23-28 | a new star object has the value of a new star |
| `StarTrail.Star.ResetPosition` | snake_game.py:30-33 | the object's new value is `Reset` of its old value |
| `StarTrail.Star.Move` | snake_game.py:35-51 | updates the list in place (pop the tail, insert the head); the new value is `Moved` of the old value and stays well formed |
| `StarTrail.Star.Grow` | snake_game.py:62-63 | the new value is `Grown` of the old value |
| `StarTrail.Star.StartRespawn` | snake_game.py:65-67 | the star is respawning since `now`; nothing else changes |
| `StarTrail.Star.CheckRespawn` | snake_game.py:69-74 | the answer is `RespawnDue` of the old value and the new value is `RespawnChecked` of it |
| `Session.AfterEvents` | snake_game.py:107-128 | input never moves the trail: afterwards it is unchanged or, after a restart, the single centre cell; while not over only the heading can change; while over the session is unchanged or restarted with the draw (`KeysIgnoredWhileRespawning`, `ArrowsIgnoredWhileOver`, `EventsKeepInvariant`) |
| `Session.NewSession` | snake_game.py:96-100 | a new session is playing with score 0, 2 lives, the drawn food and a star at (10,10) heading (1,0); the same state follows a restart at lines 114-118 (`NewSessionIsFresh`) |
| `Session.AfterKey` | snake_game.py:111-128 | while over, SPACE gives `NewSession` of the draw and every other key nothing; otherwise only the heading can change; while respawning nothing changes; while playing an arrow key that is not the reverse sets its heading and any other key changes nothing (`RestartOnSpace`, `ReverseKeyIgnored`, `KeyKeepsInvariant`) |
| `Session.AfterStep` | snake_game.py:130-153 | nothing changes unless playing; a life is lost exactly when the moved head is off the board, and at most one; the score changes exactly when the star eats, by one; the food moves only on eating, to a draw off the new trail; a change of game over leaves no respawn running (`WallCollision`, `SelfCollision`, `FoodCollision`, `QuietStep`, `StepFrozenUnlessPlaying`, `StepKeepsInvariant`) |
| `Session.AfterRespawnCheck` | snake_game.py:155-157 | score, lives and game over never change; nothing changes unless the respawn is due; when due the star is centred and playing again and the food is the draw; afterwards the respawn is not due (`RespawnCompletion`, `RespawnCheckKeepsInvariant`) |
| `Session.AfterFrame` | snake_game.py:106-157 | while not over a frame adds at most one point and loses at most one life; while over it keeps the score or restarts it (at most 1 afterwards); with a Quit the score is kept or restarted (`FrameFrozenWhileOver`, `FrameKeepsInvariant`) |
| `Session.NewSessionIsFresh` | snake_game.py:96-100 | a new session has score 0, 2 lives, is playing with a centred star and the drawn food, and satisfies the invariant |
| `Session.FoodMayStartOnTrail` | snake_game.py:113-119 | a restart does not check the food against the trail: food drawn at the centre lies on the new star |
| `Session.RespawnFoodMayLandOnTrail` | snake_game.py:155-157 | food drawn after a respawn is not checked: a draw at the centre lies on the reset star |
| `Session.RestartOnSpace` | snake_game.py:112-119 | while over, SPACE gives a fresh session (score 0, lives 2, not over, new star, new food) and every other key does nothing |
| `Session.ReverseKeyIgnored` | snake_game.py:120-128 | while playing, an arrow key for the exact reverse heading leaves the session unchanged |
| `Session.KeysIgnoredWhileRespawning` | snake_game.py:111-128 | while respawning, no sequence of events changes the session |
| `Session.ArrowsIgnoredWhileOver` | snake_game.py:111-128 | while over, events without SPACE change nothing |
| `Session.TwoKeysReverseInOneFrame` | snake_game.py:120-128 | up then left in one frame turns an eastbound star west; with the neck just west of the head the next step ends the game |
| `Session.StepFrozenUnlessPlaying` | snake_game.py:130 | when over or respawning the step leaves star, food, score and lives as they were |
| `Session.WallCollision` | snake_game.py:134-141 | a head off the board costs exactly one life; with lives left the star respawns from `now`, otherwise the game is over; score and food stay |
| `Session.SelfCollision` | snake_game.py:143-145 | a head on the board found in the rest of the trail ends the game; lives, score and food stay |
| `Session.FoodCollision` | snake_game.py:147-153 | eating adds 1 to the score, schedules one growth for the next move and moves the food to a drawn cell off the current trail |
| `Session.QuietStep` | snake_game.py:130-148 | a step with no collision and no food only moves the star |
| `Session.RespawnCompletion` | snake_game.py:155-157 | once respawn is due the star is centred and playing and the food is redrawn; score, lives and game over stay; otherwise nothing changes |
| `Session.WallHitThenRespawn` | snake_game.py:134-157 | from 2 lives a wall hit leaves 1 life and a waiting star; nothing happens before 3 seconds; from then on play resumes at the centre with the score kept |
| `Session.FrameFrozenWhileOver` | snake_game.py:106-157 | a frame while over without SPACE changes nothing at all |
| `Session.KeyKeepsInvariant` | snake_game.py:111-128 | one key event keeps the session invariant |
| `Session.EventsKeepInvariant` | snake_game.py:107-128 | the events of a frame keep the session invariant |
| `Session.StepKeepsInvariant` | snake_game.py:130-153 | the simulation step keeps the session invariant, including a distinct on-board trail while playing and length plus pending growth <= score + 1 |
| `Session.RespawnCheckKeepsInvariant` | snake_game.py:155-157 | the respawn check keeps the session invariant |
| `Session.FrameKeepsInvariant` | snake_game.py:106-157 | a whole frame keeps the session invariant |
| `GameLoop.Game.constructor` | snake_game.py:95-100 | the start of `main`: a new star, the first food, score 0, 2 lives, not over; the invariant holds |
| `GameLoop.Game.HandleKey` | snake_game.py:111-128 | one key-down event updates the fields in place as `AfterKey` says and keeps the invariant |
| `GameLoop.Game.Step` | snake_game.py:130-153 | move, then the wall, self and food checks with the redraw loop; the new state is `AfterStep` of the old one and the invariant holds |
| `GameLoop.Game.CompleteRespawn` | snake_game.py:155-157 | the new state is `AfterRespawnCheck` of the old one and the invariant holds |
| `GameLoop.Game.Frame` | snake_game.py:106-157 | processes the events until a Quit, which ends the frame at once; it reports whether there was one; otherwise it steps and checks the respawn; the new state is `AfterFrame` of the old one |

## Left out

- Drawing: `draw_star` (lines 76-92), the trail colours (`get_rainbow_colors`, lines 53-60), the text, `display.flip` and the countdown text (lines 159-191). They use floating-point trigonometry, HSV conversion and pygame, and only render.
- The `hue` field and its update (line 50): a float that only colours the trail.
- pygame set-up, event polling and `clock.tick(20)`. The events of a frame are a parameter. Quit returns `true` from `Frame` instead of closing the window.
- `time.time()`: the clock is an integer `now` in whole seconds, so sub-second times are not modelled. One reading per frame serves both `start_respawn` and `check_respawn`, which read the clock separately in the game.
- `random.randint`: the draws are parameters and are assumed to lie on the board. The redraw loop is modelled over a finite sequence of draws. Its callers must supply a draw off the trail (`DrawsSuffice`); the game's own loop has no such bound. A frame needs at most one restart draw, because only the step can end a game.
- StarTrail.Star.Move: requires a non-empty trail. `snake_game.py` would raise on an empty list, and every reachable star has at least one cell.
