# Brick breaker: the game-state rules, verified

This project models the discrete rules of a Java Swing brick-breaker game and
proves properties of them in Dafny.

The game has a paddle that follows the mouse, one or more balls, an 8-by-8
field of bricks worth 7, 5, 3 or 1 points by row, and a score. It also has
three lives and falling power-ups of four kinds:
- multi-ball triples the balls;
- extra life adds a life;
- wider paddle adds 30 to the paddle's width;
- slow ball slows every ball.

Three update phases change the state, each under the game's lock:
- the physics tick, of which the lost-ball and lives part is modelled;
- the brick-collision tick;
- the power-up tick.

The state also changes through the keyboard (SPACE pauses, R restarts once
the game is over), the mouse, and the victory latch in the repaint.

The model follows the source file by file:

- `entities.dfy`: value records for the entities the core only uses (bricks and balls), rectangles, and Java's truncating halving.
- `brick_field.dfy` (BrickField.java): the class `BrickField` keeps the bricks in a two-dimensional array. Its scan is proved against `Collide`, a function on the grid value with lemmas:
  - the scan finds exactly the first active brick hit in row-major order;
  - exactly that one brick changes;
  - the active count drops by one per hit.
- `score_manager.dfy` (ScoreManager.java): the class `ScoreManager`.
- `paddle.dfy` (Paddle.java): the class `Paddle`.
- `power_up.dfy` (PowerUp.java): the kinds, and the class `PowerUp` with its fall and paddle test.
- `game.dfy`: the rules of GamePanel.java as transitions of a `World` value, one per phase, handler and effect, with the properties proved about them.
- `game_panel.dfy` (GamePanel.java): the class `GamePanel`. Its fields are those of the source: a paddle, a ball list, a brick field, a score manager, a power-up list, three flags and a life count. Each method is proved to change the panel exactly as the matching `Game` transition changes the world value the panel stands for (`View()`).

The parts the model cannot see are parameters:
- the random draws;
- the screen height;
- the physics' verdict on which balls fell out;
- the ball-brick intersection test;
- the slow-down of a ball.

## Model

| member | source | states |
|---|---|---|
| Entities.JavaHalf | Paddle.java:21 | Java's `n / 2`: equal to n/2 for n ≥ 0, rounded toward zero for negative n, leaving a remainder of -1, 0 or 1 with the sign of n |
| Entities.ReverseY | GamePanel.java:389 | a brick hit flips the ball's vertical velocity and changes nothing else about the ball |
| BrickFields.InitialGridLayout | BrickField.java:29-37 | brick (i, j) of a fresh field is worth [7,7,5,5,3,3,1,1][i % 8] points, sits at x = 85j + 50, y = 25i + 50, is 75 by 20 and active; every brick is worth 1, 3, 5 or 7 |
| BrickFields.InitialGridFull | BrickField.java:21-39 | a fresh field has `rows` rows of `cols` bricks, all `rows * cols` of them active, so it is not empty |
| BrickFields.InitialBricksDisjoint | BrickField.java:35-37 | no two bricks of a fresh field overlap: columns are 10 pixels apart and rows 5 |
| BrickFields.InitialGrid | BrickField.java:21-39 | defines the fresh field: brick (i, j) at x = 85j + 50, y = 25i + 50, 75 by 20, worth [7,7,5,5,3,3,1,1][i % 8], active; its properties are InitialGridLayout, InitialGridFull and InitialBricksDisjoint |
| BrickFields.BrickField.constructor | BrickField.java:15-39 | the array holds exactly the initial layout for the given rows and columns |
| BrickFields.FirstInRowSpec | BrickField.java:54-58 | the inner scan finds the first active, hit brick at or after column j, and finds nothing exactly when there is none |
| BrickFields.FirstFromSpec | BrickField.java:53-60 | the outer scan from row i finds the first active, hit brick in row-major order, and finds nothing exactly when there is none |
| BrickFields.FirstHitSpec | BrickField.java:53-61 | the scan reports nothing exactly when no active brick is hit, and otherwise the first one in row-major order |
| BrickFields.FirstHitUnique | BrickField.java:53-57 | any position that is the first active, hit brick is the one the scan reports |
| BrickFields.CollideMiss | BrickField.java:52-61 | the collision returns nothing exactly when no active brick is hit, and then leaves every brick unchanged |
| BrickFields.CollideHit | BrickField.java:55-57 | on a hit, the first active, hit brick goes from active to inactive and is returned in that state; every other brick is unchanged |
| BrickFields.CollideNeverActivates | BrickField.java:55-56 | a collision never makes a brick active, never changes a brick's points and keeps the grid's shape |
| BrickFields.DeactivateCounts | BrickField.java:56 | switching off an active brick lowers the active count by one and the points left on the field by the brick's value |
| BrickFields.CollideCounts | BrickField.java:55-56 | the active count drops by exactly one on a hit and by zero on a miss; the points left drop by the hit brick's value |
| BrickFields.Collide | BrickField.java:52-61 | defines the collision on the grid value: the first active brick hit in row-major order is switched off and returned, otherwise nothing is; its properties are CollideMiss, CollideHit, CollideNeverActivates and CollideCounts |
| BrickFields.EmptyStaysEmpty | BrickField.java:64-73 | once no brick is active, every collision misses and the field stays empty |
| BrickFields.AllInactiveIffNoneCounted | BrickField.java:64-73 | the field is empty exactly when the active count is zero |
| BrickFields.BrickField.CheckCollision | BrickField.java:52-62 | the returned brick and the new array are exactly the collision of the old array, so all the collision lemmas apply to the method |
| BrickFields.BrickField.IsEmpty | BrickField.java:64-73 | returns true exactly when every brick is inactive, and changes nothing |
| Scores.ScoreManager.constructor | ScoreManager.java:6-8 | a new manager's score is 0 |
| Scores.ScoreManager.AddPoints | ScoreManager.java:10-12 | the score grows by exactly `points`, never drops for non-negative `points`, and nothing else changes |
| Scores.ScoreManager.GetScore | ScoreManager.java:14-16 | returns the current score and changes nothing |
| Scores.ScoreManager.ResetScore | ScoreManager.java:18-20 | the score is 0 afterwards whatever it was, so a second reset changes nothing |
| Paddles.CentredOnPointer | Paddle.java:19-22 | after recentring, x + width / 2 is the pointer; the pointer lies on the paddle, at its centre for an even width and half a pixel left of centre for an odd width |
| Paddles.CentringIsUnclamped | Paddle.java:21 | there is no clamping: for any bound, some pointer position puts the left edge beyond it on either side |
| Paddles.Paddle.constructor | Paddle.java:12-17 | x, y, width and height are stored as given |
| Paddles.Paddle.MoveTo | Paddle.java:19-22 | x becomes pointer - width / 2, with Java's truncating division; y, width and height are unchanged |
| Paddles.Paddle.SetWidth | Paddle.java:41-43 | the width is set; x, y and height are unchanged |
| Paddles.CentredX | Paddle.java:21 | defines the left edge that centres a paddle of the given width on the pointer, pointer - width / 2 with Java's truncating halving; its properties are CentredOnPointer and CentringIsUnclamped |
| Paddles.Paddle.GetX | Paddle.java:29-31 | returns x; reads only the paddle |
| Paddles.Paddle.GetY | Paddle.java:33-35 | returns y; reads only the paddle |
| Paddles.Paddle.GetWidth | Paddle.java:37-39 | returns the width; reads only the paddle |
| Paddles.Paddle.GetHeight | Paddle.java:45-47 | returns the height; reads only the paddle |
| PowerUps.KindsAreFour | PowerUp.java:16-21 | there are exactly four kinds, and the draw index reaches each of them exactly once |
| PowerUps.PowerUp.constructor | PowerUp.java:23-27 | x, y and the kind are stored as given |
| PowerUps.PowerUp.Move | PowerUp.java:29-31 | y grows by exactly 2; x and the kind are unchanged |
| PowerUps.Moved | PowerUp.java:29-31 | defines one tick of falling on the value: y grows by 2, x and kind kept; its property is FallDistance |
| PowerUps.FallDistance | PowerUp.java:29-31 | n moves put the power-up 2n lower, in the same column and of the same kind |
| PowerUps.PassedStaysPassed | PowerUp.java:79-82 | a power-up whose top is below the paddle never touches the paddle again, however far it falls |
| PowerUps.PowerUp.Intersects | PowerUp.java:79-82 | reads the power-up and the paddle and changes neither; is the paddle test `Touches` of the two, and holds exactly when the power-up's centre lies in the paddle's rectangle grown by 10 above and below |
| PowerUps.Touches | PowerUp.java:79-82 | defines the paddle test on values: paddle.x ≤ x ≤ paddle.x + width, y + 10 ≥ paddle.y and y - 10 ≤ paddle.y + height; its properties are TouchesIsSegmentOverlap and PassedStaysPassed |
| PowerUps.TouchesIsSegmentOverlap | PowerUp.java:79-82 | the paddle test means the 20-pixel vertical segment through the centre overlaps the paddle, or equally that the centre lies in the paddle grown by 10 above and below |
| PowerUps.PowerUp.GetX | PowerUp.java:84-86 | returns x; reads only the power-up |
| PowerUps.PowerUp.GetY | PowerUp.java:88-90 | returns y; reads only the power-up |
| PowerUps.PowerUp.GetType | PowerUp.java:92-94 | returns the kind, which never changes, so it reads nothing |
| Game.PhasesIdleUnlessActing | GamePanel.java:283-292 | the lost-ball, brick and power-up phases change nothing while the game is over, paused or not running |
| Game.Initial | GamePanel.java:46-63 | defines the state a new game starts in: running, not paused, not over, 3 lives, score 0, one start ball, the start paddle, a full field and no power-ups; its properties are InitialPlayable and ResetSpec |
| Game.Reset | GamePanel.java:133-151 | defines the reset: everything rebuilt as at the start except the running flag; its properties are ResetSpec, ResetPlayable and GameOverIsSticky |
| Game.MouseMoved | GamePanel.java:69-75 | defines the pointer handler: recentre the paddle only while running and not paused; its property is MouseMovedSpec |
| Game.KeyPressed | GamePanel.java:81-94 | defines the key handler: SPACE toggles pause, R resets a game that is over, other keys do nothing; its properties are KeySpaceSpec and KeyRSpec |
| Game.Victory | GamePanel.java:263-268 | defines the victory latch: an empty field ends the game; its property is VictorySpec |
| Game.MouseMovedSpec | GamePanel.java:69-75 | the paddle moves only while running and not paused, and then only its left edge changes, to centre it on the pointer |
| Game.ResetSpec | GamePanel.java:133-146 | reset gives 3 lives, score 0, one ball (400, 400, 10, 3, -3), paddle (350, 530, 100, 15), no power-ups, a full 8-by-8 field of 64 active bricks, and clears pause and game over; the running flag is kept |
| Game.KeyRSpec | GamePanel.java:88-92 | R resets exactly when the game is over and otherwise changes nothing |
| Game.KeySpaceSpec | GamePanel.java:83-85 | SPACE flips pause and nothing else, so pressing it twice changes nothing |
| Game.GameOverIsSticky | GamePanel.java:133-146 | once the game is over, only R (the reset) clears it; every phase, the mouse, any other key and the victory latch keep it set |
| Game.VictorySpec | GamePanel.java:263-268 | after the latch, the game is over exactly when it already was or the field is empty; nothing else changes, and a second latch changes nothing |
| Game.Survivors | GamePanel.java:326-328 | defines the balls left after the lost ones are removed, in list order; its properties are SurvivorsSpec, SurvivorsOrder and SurvivorsPicked |
| Game.SurvivorsSpec | GamePanel.java:327-328 | after removing the lost balls, a ball remains exactly when it was not flagged lost, and none remain exactly when all were lost |
| Game.SurvivorsOrder | GamePanel.java:328 | the remaining balls keep their relative order |
| Game.Unflagged | GamePanel.java:327-328 | defines the positions of the balls not flagged lost, in increasing order; its property is UnflaggedSpec |
| Game.UnflaggedSpec | GamePanel.java:327-328 | the listed positions are exactly the unflagged ones, each once, strictly increasing, and there are as many as there are false flags |
| Game.SurvivorsPicked | GamePanel.java:326-328 | the remaining balls are, one for one and in order, the balls at the unflagged positions; so exactly one ball goes per lost flag: as many remain as there were balls minus lost flags |
| Game.LoseBalls | GamePanel.java:326-339 | defines the lost-ball step: with some ball lost, keep the survivors, or with none left lose a life and either end the game or serve a start ball; its properties are LoseBallsSpec and LoseBallsPlayable |
| Game.LoseBallsSpec | GamePanel.java:326-339 | with no ball lost nothing changes; with some lost and some left, only the lost ones go and lives are unchanged; with none left, lives drop by exactly 1 and either the game ends (lives were ≤ 1) or exactly one start ball is served |
| Game.InitialPlayable | GamePanel.java:46-59 | a fresh game is in play (a life and a ball, score and brick points non-negative), and it is what a reset of itself gives |
| Game.ResetPlayable | GamePanel.java:133-146 | a reset game is in play |
| Game.LoseBallsPlayable | GamePanel.java:330-338 | the lost-ball step keeps the game in play: while not over there is a life and a ball |
| Game.Split | GamePanel.java:177-190 | defines the two balls multi-ball adds for one original: same place and size, velocity scaled by (0.9, 1.1) and by (1.1, 0.9); its property is CopiesSpec |
| Game.SlowAll | GamePanel.java:210-212 | defines every ball slowed in place, in order; its properties are ActivateSpec and SlowBalls |
| Game.Copies | GamePanel.java:173-191 | defines the balls multi-ball appends, two per original in order; its properties are CopiesLength and CopiesSpec |
| Game.CopiesLength | GamePanel.java:173-191 | multi-ball appends exactly two balls per original |
| Game.CopiesSpec | GamePanel.java:173-191 | the two balls appended for original i sit at positions 2i and 2i + 1, with its position and size and its velocity scaled by (0.9, 1.1) and by (1.1, 0.9) |
| Game.MultiBallSpec | GamePanel.java:170-193 | with n balls, multi-ball gives 3n: the first n are the originals untouched, followed by two copies of each original, in order, at its position and size; lives, paddle, field and power-ups are unchanged |
| Game.Activate | GamePanel.java:168-217 | defines the effect of collecting a power-up of each kind, 25 points included; its properties are ActivateSpec, ActivateKeeps, ActivatePlayable, ActivateIgnoresPickups and MultiBallSpec |
| Game.ActivateSpec | GamePanel.java:195-217 | every kind adds exactly 25 points; extra life adds exactly 1 life and wider paddle exactly 30 width, and neither changes anything else; slow ball slows every ball and keeps their number |
| Game.ActivateKeeps | GamePanel.java:168-217 | no effect lowers lives or the ball count; the paddle keeps its place and height and can only widen; no effect touches the field, the power-up list or the flags |
| Game.ActivatePlayable | GamePanel.java:168-217 | collecting a power-up keeps the game in play |
| Game.ActivateIgnoresPickups | GamePanel.java:168-217 | the effects neither read nor write the power-up list |
| Game.Spawn | GamePanel.java:154-165 | defines the spawn: append a power-up of the drawn kind at the given point when the roll is below 25; its properties are in BallHitSpec and SpawnPowerUp |
| Game.BallHit | GamePanel.java:387-393 | defines one ball's turn: ask the field for a collision and, on a hit, apply Scored; its property is BallHitSpec |
| Game.Scored | GamePanel.java:388-393 | defines what a destroyed brick does: the ball bounces, the brick's points are scored and a power-up may drop at its centre; its property is BallHitSpec |
| Game.BallHitSpec | GamePanel.java:387-393 | one ball's turn: the field loses at most one brick, and the score grows by that brick's points, so score plus points on the field is unchanged; on a hit, the ball bounces and a power-up of the drawn kind appears at the brick's centre exactly when the roll is below 25 |
| Game.CollideUpToConserves | GamePanel.java:386-395 | over the balls' turns, score plus points left on the field is conserved and the active count drops by at most one per ball |
| Game.CollideUpTo | GamePanel.java:386-395 | the first k balls of the snapshot have had their turn, in list order; the ball count never changes; its properties are CollideUpToConserves and CollideUpToMonotone |
| Game.BrickPhase | GamePanel.java:384-395 | defines the brick phase: each ball takes its turn in list order, when the game acts; its properties are BrickPhaseConserves, BrickPhasePlayable and EmptyFieldIdle |
| Game.BrickPhaseConserves | GamePanel.java:384-395 | the brick phase conserves score plus points on the field, keeps the ball count, lives, paddle and game-over flag, and destroys at most one brick per ball |
| Game.CollideUpToMonotone | GamePanel.java:386-387 | the brick phase never makes a brick active and never changes a brick's points |
| Game.BrickPhasePlayable | GamePanel.java:384-395 | the brick phase never lowers the score and keeps the game in play |
| Game.EmptyFieldIdle | GamePanel.java:386-387 | over an empty field the brick phase changes nothing at all |
| Game.SweepStep | GamePanel.java:426-439 | defines one power-up's turn: it falls; below the screen it is dropped, touching the paddle it is collected and its effect applied, otherwise it is kept |
| Game.SweepUpTo | GamePanel.java:424-440 | defines the sweep over the power-ups in list order; its properties are SweepKept, SweepScore, SweepWorld, SweepCollects and SweepPlayable |
| Game.SweepKept | GamePanel.java:424-440 | the power-ups kept are the moved ones, in their relative order, and each is still on screen; which ones are kept is SweepCollects |
| Game.SweepScore | GamePanel.java:436-438 | every power-up not kept either fell off screen or was collected, and the score rises by exactly 25 per collection; the collection rule itself is SweepCollects |
| Game.SweepWorld | GamePanel.java:424-440 | the power-up sweep never lowers lives, paddle width or the ball count, and leaves the field, the flags and the power-up list untouched |
| Game.TouchesWider | GamePanel.java:436 | a power-up touching the paddle still touches it once the paddle is widened |
| Game.CountCaught | GamePanel.java:430-436 | defines how many power-ups, once moved, are still on screen and touch a given paddle |
| Game.CountCaughtWider | GamePanel.java:430-436 | a wider paddle catches at least as many |
| Game.SweepCollects | GamePanel.java:430-438 | the collection rule: no kept power-up touches the paddle as it was when the sweep began; the paddle keeps its place and height and can only widen; the number collected is at least the number on screen touching the starting paddle and at most the number touching the final one |
| Game.KindCount | GamePanel.java:169 | defines how many of a list of power-ups are of a given kind |
| Game.WidenedBy | GamePanel.java:201-203 | defines the paddle after collecting given power-ups: 30 wider per wider-paddle among them, same place and height |
| Game.Caught | GamePanel.java:424-438 | defines, from the power-ups and the starting paddle alone, which ones a sweep collects: each in turn, once moved, exactly when it is on screen and touches the paddle as widened by the wider-paddles caught before it |
| Game.Missed | GamePanel.java:424-440 | defines the power-ups such a sweep keeps: moved, on screen and not touching the paddle as it is at their turn, in order |
| Game.CaughtMissedPartition | GamePanel.java:430-438 | every power-up falls off, is caught or is missed: the three counts add up to the number of power-ups |
| Game.ActivateCounts | GamePanel.java:168-217 | collecting one power-up adds 25 points, and adds 1 life for extra life, 30 width for wider paddle and triples the balls for multi-ball; lives, paddle and ball count are otherwise unchanged |
| Game.SweepExact | GamePanel.java:424-440 | the sweep keeps exactly the missed power-ups; its paddle is the start paddle widened by the caught wider-paddles; score rises by 25 per caught one, lives by the caught extra lives, and the ball count is multiplied by 3 per caught multi-ball |
| Game.WiderMidSweep | GamePanel.java:424-438 | a wider-paddle caught first lets a later power-up beyond the old right edge be caught, while one beyond the new edge is still missed |
| Game.PowerUpPhase | GamePanel.java:413-442 | defines the power-up phase: when the game acts, sweep the power-ups and keep the survivors; its properties are PowerUpPhaseSpec and SweepPlayable |
| Game.PowerUpPhaseSpec | GamePanel.java:422-440 | the power-up phase in one statement: the survivors are moved power-ups still on screen, in their old order, none touching the paddle; every moved power-up on screen that touches the paddle is collected (the count collected lies between those touching the old and the new paddle, and equals those touching the paddle when its width did not change); the score rises by 25 per collection; lives and balls do not drop. Exactly: the survivors are the missed power-ups, the caught ones are those touching the paddle as widened by earlier catches, and score, lives, paddle width and ball count change by 25, 1, 30 and a factor 3 per caught power-up, extra life, wider paddle and multi-ball |
| Game.SweepPlayable | GamePanel.java:424-440 | the power-up sweep keeps the game in play |
| Game.TransitionsPlayable | GamePanel.java:283-440 | every phase, handler and the victory latch keep the game in play: while not over there is a life and a ball, and the score is non-negative |
| GamePanels.RemoveLost | GamePanel.java:294-328 | the kept balls are exactly the survivors, in order, and a ball was lost exactly when some ball was flagged |
| GamePanels.MultiplyBalls | GamePanel.java:173-191 | the loop over the original count yields the originals followed by their two copies each, so the appended balls are never copied again |
| GamePanels.SlowBalls | GamePanel.java:210-212 | every ball is replaced by its slowed self, and there are as many as before |
| GamePanels.GamePanel.constructor | GamePanel.java:38-59 | a new panel is in the initial state |
| GamePanels.GamePanel.MouseMoved | GamePanel.java:69-75 | the panel changes exactly as the mouse transition says |
| GamePanels.GamePanel.KeyPressed | GamePanel.java:81-94 | the panel changes exactly as the key transition says |
| GamePanels.GamePanel.ResetGame | GamePanel.java:133-151 | the panel becomes exactly the reset state |
| GamePanels.GamePanel.CheckVictory | GamePanel.java:263-268 | the panel changes exactly as the victory latch says |
| GamePanels.GamePanel.GameLogicTick | GamePanel.java:283-342 | the panel changes exactly as the lost-ball step says |
| GamePanels.GamePanel.SpawnPowerUp | GamePanel.java:154-165 | a power-up of the drawn kind is appended exactly when the roll is below 25; nothing else changes |
| GamePanels.GamePanel.CollideBall | GamePanel.java:387-394 | the panel changes exactly as one ball's turn says |
| GamePanels.GamePanel.ScoreHit | GamePanel.java:388-393 | a hit bounces the ball, scores the brick and may drop a power-up at its centre, exactly as the hit rule says |
| GamePanels.GamePanel.BrickCollisionTick | GamePanel.java:375-397 | the panel changes exactly as the brick phase says, each ball of a snapshot taking its turn in order |
| GamePanels.GamePanel.ActivatePowerUp | GamePanel.java:168-218 | the panel changes exactly as the power-up's effect says, and the power-up list is unchanged |
| GamePanels.GamePanel.SweepOne | GamePanel.java:426-439 | the power-up falls by 2, and the panel and the keep verdict follow one sweep step |
| GamePanels.GamePanel.SweepPowerUps | GamePanel.java:424-440 | the whole sweep: the panel changes as the sweep says, and the returned list holds the kept power-ups, in order, without repeats |
| GamePanels.GamePanel.SweepAt | GamePanel.java:426-439 | one power-up's turn extends the sweep by exactly one step |
| GamePanels.GamePanel.PowerUpTick | GamePanel.java:413-442 | the panel changes exactly as the power-up phase says |

## Left out

- Threads and synchronisation are left out: the thread classes, `sleep`, `wait`/`notifyAll`, `join` and `stopGame` (GamePanel.java:98-131). Each locked loop body is one method, run one at a time. A phase that would block while paused is a step that changes nothing.
- Drawing is left out: `paintComponent` except its victory latch, `drawCenteredString`, every `draw` method, GameFrame.java and BrickBreakerGame.java. These are user interface only.
- Input-event plumbing is left out: the handlers take a key code or a pointer x.
- The ball physics of the physics tick is left out: moving, wall and paddle bounces and `adjustVelocity` (GamePanel.java:297-323). Ball.java is not part of this model. The physics' verdict on which balls fell out is the `lost` parameter.
- `Ball.intersects(Brick)` and `Ball.slowDown()` are parameters. `Ball.reverseY()` is modelled as negating the vertical velocity.
- Brick.java is not part of this model. A brick is a record that is created active and only ever switched off.
- The source's null test on bricks is not modelled. The constructor fills every cell, so a cell is never null.
- `java.util.Random` is replaced by a draw parameter: a roll in [0, 100) and a kind index in [0, 4). The kind index is ignored when the roll is 25 or more.
- The screen height comes from Swing and is a parameter.
- Scores.ScoreManager.AddPoints: does not model Java's 32-bit `int` wrap-around; the score is unbounded.
- Paddles.Paddle.MoveTo: does not model 32-bit wrap-around of `pointer - width / 2` or of the widened width.
- Game.CopiesSpec: ball velocities are exact reals, so `float` rounding of the 0.9 and 1.1 factors is not modelled.
- Power-up coordinates are `float` in the source and integers here. They start at integer brick centres and only ever grow by 2.0, so they stay exact.
- Balls are values, not shared objects. The brick tick bounces the ball object it shares with the ball list; here ball k of the list is replaced. That is the same thing, because the list keeps its length during that tick.
- `removeAll` removes every list element `equals` to a lost ball. Ball.java is not part of this model, so whether `Ball` overrides `equals` cannot be seen. The model removes the flagged positions, which agrees with `removeAll` when `equals` is the default identity and every ball in the list is a distinct object. A value-based `equals` would also remove unflagged balls equal to a lost one, and that case is not modelled.
