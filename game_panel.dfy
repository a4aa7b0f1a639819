/** The game panel's state and the bodies of its update phases, input
    handlers, reset and victory latch, run one at a time. Each method is
    proved to move the panel's state exactly as the matching transition of
    module Game moves a world value. */
module GamePanels {
  import opened Entities
  import opened BrickFields
  import opened PowerUps
  import opened Paddles
  import opened Scores
  import opened Game

  /** The power-ups in a list, as values. */
  ghost function Pickups(ps: seq<PowerUp>): (r: seq<Pickup>)
    reads set p | p in ps
  {
    seq(|ps|, i requires 0 <= i < |ps| reads ps => ps[i].View())
  }

  /** Splits the balls into those kept and whether any was lost, walking
      the list once as the physics tick does. */
  method RemoveLost(balls: seq<Ball>, lost: seq<bool>) returns (kept: seq<Ball>, anyLost: bool)
    requires |lost| == |balls|
    ensures kept == Survivors(balls, lost)
    ensures anyLost <==> true in lost
  {
    anyLost := false;
    kept := [];
    var k := 0;
    while k < |balls|
      invariant 0 <= k <= |balls|
      invariant kept == Survivors(balls[..k], lost[..k])
      invariant anyLost <==> true in lost[..k]
    {
      assert balls[..k + 1][..k] == balls[..k] && lost[..k + 1][..k] == lost[..k];
      if lost[k] {
        anyLost := true;
      } else {
        kept := kept + [balls[k]];
      }
      k := k + 1;
    }
    assert balls[..k] == balls && lost[..k] == lost;
  }

  /** Multi-ball's loop: for each ball present when it starts, in order,
      append its two copies; the appended balls are not visited. */
  method MultiplyBalls(balls: seq<Ball>) returns (grown: seq<Ball>)
    ensures grown == balls + Copies(balls)
  {
    var currentBallCount := |balls|;
    grown := balls;
    var i := 0;
    while i < currentBallCount
      invariant 0 <= i <= currentBallCount
      invariant grown == balls + Copies(balls[..i])
    {
      var original := grown[i];
      grown := grown + Split(original);
      assert balls[..i + 1][..i] == balls[..i];
      i := i + 1;
    }
    assert balls[..i] == balls;
  }

  /** Slow-ball's loop: every ball slowed in place. */
  method SlowBalls(balls: seq<Ball>, slow: Ball -> Ball) returns (slowed: seq<Ball>)
    ensures slowed == SlowAll(balls, slow)
  {
    slowed := balls;
    var i := 0;
    while i < |slowed|
      invariant 0 <= i <= |slowed| == |balls|
      invariant forall j :: 0 <= j < i ==> slowed[j] == slow(balls[j])
      invariant forall j :: i <= j < |slowed| ==> slowed[j] == balls[j]
    {
      slowed := slowed[i := slow(slowed[i])];
      i := i + 1;
    }
  }

  /** No power-up object appears twice in the list. */
  ghost predicate Distinct(ps: seq<PowerUp>)
  {
    forall i, j :: 0 <= i < j < |ps| ==> ps[i] != ps[j]
  }

  class GamePanel {
    var paddle: Paddle
    var balls: seq<Ball>
    var brickField: BrickField
    const scoreManager: ScoreManager
    var powerUps: seq<PowerUp>
    var isRunning: bool
    var isPaused: bool
    var gameOver: bool
    var lives: int

    ghost predicate Valid()
      reads this, brickField
    {
      brickField.Valid() && Distinct(powerUps)
    }

    /** The panel's state apart from the power-ups, as a world value with
        an empty power-up list. */
    ghost function Core(): World
      reads this, paddle, brickField, brickField.bricks, scoreManager
    {
      World(paddle.View(), balls, brickField.Cells(), scoreManager.score, [],
            isRunning, isPaused, gameOver, lives)
    }

    /** The panel's whole state as a world value. */
    ghost function View(): World
      reads this, paddle, brickField, brickField.bricks, scoreManager, set p | p in powerUps
    {
      Core().(pickups := Pickups(powerUps))
    }

    /** A new game: start paddle, one start ball, a full 8-by-8 field, score
        zero, no power-ups, three lives, running and neither paused nor over. */
    constructor ()
      ensures Valid() && View() == Initial()
    {
      paddle := new Paddle(350, 530, 100, 15);
      balls := [StartBall];
      brickField := new BrickField(FieldRows, FieldCols);
      scoreManager := new ScoreManager();
      powerUps := [];
      isRunning := true;
      isPaused := false;
      gameOver := false;
      lives := StartLives;
    }

    /** Pointer motion: recentre the paddle while running and not paused. */
    method MouseMoved(pointerX: int)
      requires Valid()
      modifies paddle
      ensures Valid() && View() == Game.MouseMoved(old(View()), pointerX)
    {
      if isRunning && !isPaused {
        paddle.MoveTo(pointerX);
      }
    }

    /** Key press: SPACE toggles pause; R restarts only when the game is over. */
    method KeyPressed(code: int)
      requires Valid()
      modifies this, scoreManager
      ensures Valid() && View() == Game.KeyPressed(old(View()), code)
    {
      if code == KeySpace {
        isPaused := !isPaused;
      } else if code == KeyR {
        if gameOver {
          ResetGame();
        }
      }
    }

    /** Rebuilds paddle, ball list, field and power-up list, zeroes the score,
        restores three lives and clears pause and game over. */
    method ResetGame()
      requires Valid()
      modifies this, scoreManager
      ensures Valid() && View() == Reset(old(View()))
    {
      ghost var running := isRunning;
      paddle := new Paddle(350, 530, 100, 15);
      balls := [StartBall];
      brickField := new BrickField(FieldRows, FieldCols);
      scoreManager.ResetScore();
      powerUps := [];
      isPaused := false;
      gameOver := false;
      lives := StartLives;
      assert Pickups(powerUps) == [];
      assert View() == World(StartPaddle, [StartBall], InitialGrid(FieldRows, FieldCols), 0, [],
                             running, false, false, StartLives);
    }

    /** The victory latch of a repaint: an empty field ends the game. */
    method CheckVictory()
      requires Valid()
      modifies this
      ensures Valid() && View() == Victory(old(View()))
    {
      var empty := brickField.IsEmpty();
      if empty && !gameOver {
        gameOver := true;
      }
    }

    /** The lost-ball part of a physics tick. `lost[k]` is the physics'
        verdict that ball k fell below the screen. A paused tick is blocked
        and changes nothing. */
    method GameLogicTick(lost: seq<bool>)
      requires Valid() && |lost| == |balls|
      modifies this
      ensures Valid() && View() == LoseBalls(old(View()), lost)
    {
      if isPaused {
        return;
      }
      if !gameOver && isRunning {
        var kept, anyLost := RemoveLost(balls, lost);
        if anyLost {
          balls := kept;
          if |balls| == 0 {
            lives := lives - 1;
            if lives <= 0 {
              gameOver := true;
            } else {
              balls := balls + [StartBall];
            }
          }
        }
      }
    }

    /** Drops a power-up of the drawn kind at (x, y) when the roll is below 25. */
    method SpawnPowerUp(x: int, y: int, d: Draw)
      requires Valid() && ValidDraw(d)
      modifies this
      ensures Valid() && Core() == old(Core())
      ensures Pickups(powerUps) == Spawn(old(Pickups(powerUps)), x, y, d)
      ensures paddle == old(paddle) && brickField == old(brickField)
    {
      if d.chance < SpawnChance {
        var p := new PowerUp(x, y, Kinds[d.kind]);
        powerUps := powerUps + [p];
      }
    }

    /** One ball's turn in the brick-collision tick: ask the field for a
        hit and, on a hit, score it. */
    method CollideBall(k: nat, ball: Ball, intersects: (Ball, Brick) -> bool, d: Draw)
      requires Valid() && k < |balls| && balls[k] == ball && ValidDraw(d)
      modifies this, brickField.bricks, scoreManager
      ensures Valid() && View() == BallHit(old(View()), k, intersects, d)
      ensures brickField == old(brickField) && paddle == old(paddle)
    {
      ghost var w := View();
      ghost var c := Collide(w.grid, HitBy(intersects, ball));
      var hitBrick := brickField.CheckCollision(HitBy(intersects, ball));
      assert hitBrick == c.hit && brickField.Cells() == c.grid;
      assert View() == w.(grid := c.grid);
      if hitBrick.Some? {
        ScoreHit(k, hitBrick.value, d);
      } else {
        CollideMiss(w.grid, HitBy(intersects, ball));
      }
    }

    /** A destroyed brick: the ball bounces, the brick's points are scored
        and a power-up may drop at the brick's centre. */
    method ScoreHit(k: nat, brick: Brick, d: Draw)
      requires Valid() && k < |balls| && ValidDraw(d)
      modifies this, scoreManager
      ensures Valid() && View() == Scored(old(View()), k, brick, d)
      ensures brickField == old(brickField) && paddle == old(paddle)
    {
      balls := balls[k := ReverseY(balls[k])];
      scoreManager.AddPoints(brick.points);
      SpawnPowerUp(brick.x + JavaHalf(brick.width), brick.y + JavaHalf(brick.height), d);
    }

    /** One brick-collision tick: each ball of a snapshot of the list, in
        order, takes its turn, with one draw each. */
    method BrickCollisionTick(intersects: (Ball, Brick) -> bool, draws: seq<Draw>)
      requires Valid() && |draws| == |balls| && ValidDraws(draws)
      modifies this, brickField.bricks, scoreManager
      ensures Valid() && View() == BrickPhase(old(View()), intersects, draws)
    {
      if isPaused {
        return;
      }
      if !gameOver && isRunning {
        ghost var w0 := View();
        var snapshot := balls;
        var k := 0;
        while k < |snapshot|
          invariant 0 <= k <= |snapshot|
          invariant Valid() && brickField == old(brickField)
          invariant |balls| == |snapshot| && forall m :: k <= m < |snapshot| ==> balls[m] == snapshot[m]
          invariant View() == CollideUpTo(w0, intersects, draws, k)
        {
          assert balls[k] == snapshot[k];
          CollideBall(k, snapshot[k], intersects, draws[k]);
          k := k + 1;
        }
      }
    }

    /** Applies a collected power-up's effect and its 25-point bonus.
        Multi-ball appends two copies per ball present when it starts, so
        the copies it appends are not copied again. */
    method ActivatePowerUp(pu: PowerUp, slow: Ball -> Ball)
      requires Valid()
      modifies this, paddle, scoreManager
      ensures Valid() && Core() == Activate(old(Core()), pu.kind, slow)
      ensures powerUps == old(powerUps) && paddle == old(paddle) && brickField == old(brickField)
    {
      match pu.GetType() {
        case MultiBall =>
          balls := MultiplyBalls(balls);
        case ExtraLife =>
          lives := lives + 1;
        case WiderPaddle =>
          paddle.SetWidth(paddle.GetWidth() + WidenBy);
        case SlowBall =>
          balls := SlowBalls(balls, slow);
      }
      scoreManager.AddPoints(PickupBonus);
    }

    /** One power-up's turn in the power-up tick: it falls; below the
        screen it is to be removed; touching the paddle it is collected and
        to be removed; otherwise it stays. */
    method SweepOne(pu: PowerUp, height: int, slow: Ball -> Ball) returns (keep: bool)
      requires Valid()
      modifies pu, this, paddle, scoreManager
      ensures Valid() && powerUps == old(powerUps) && paddle == old(paddle) && brickField == old(brickField)
      ensures pu.View() == Moved(old(pu.View()))
      ensures var s := SweepStep(Swept(old(Core()), []), old(pu.View()), height, slow);
        Core() == s.world && keep == (s.kept != [])
    {
      pu.Move();
      if pu.GetY() > height {
        keep := false;
      } else if pu.Intersects(paddle) {
        ActivatePowerUp(pu, slow);
        keep := false;
      } else {
        keep := true;
      }
    }

    /** One power-up tick: every power-up takes its turn in order; those
        removed leave the list, the rest stay in their order. */
    method PowerUpTick(height: int, slow: Ball -> Ball)
      requires Valid()
      modifies this, paddle, scoreManager, set p | p in powerUps
      ensures Valid() && View() == PowerUpPhase(old(View()), height, slow)
    {
      if isPaused {
        return;
      }
      if !gameOver && isRunning {
        var kept := SweepPowerUps(height, slow);
        powerUps := kept;
      }
    }

    /** The sweep of a power-up tick: each power-up in order falls and is
        dropped, collected or kept; returns the kept ones in their order. */
    method SweepPowerUps(height: int, slow: Ball -> Ball) returns (kept: seq<PowerUp>)
      requires Valid()
      modifies this, paddle, scoreManager, set p | p in powerUps
      ensures Valid() && powerUps == old(powerUps) && brickField == old(brickField) && paddle == old(paddle)
      ensures Distinct(kept)
      ensures var s := SweepUpTo(old(View()), old(View()).pickups, height, slow);
        Core() == s.world.(pickups := []) && Pickups(kept) == s.kept
    {
      ghost var w0 := View();
      var ps := powerUps;
      kept := [];
      ghost var views: seq<Pickup> := [];
      var k := 0;
      while k < |ps|
        invariant 0 <= k <= |ps|
        invariant Valid() && powerUps == ps && ps == old(powerUps)
        invariant brickField == old(brickField) && paddle == old(paddle)
        invariant forall m :: k <= m < |ps| ==> ps[m].View() == w0.pickups[m]
        invariant Distinct(kept) && forall q :: q in kept ==> q in ps[..k]
        invariant |kept| == |views| && forall i :: 0 <= i < |kept| ==> kept[i].View() == views[i]
        invariant views == SweepUpTo(w0, w0.pickups[..k], height, slow).kept
        invariant Core() == SweepUpTo(w0, w0.pickups[..k], height, slow).world.(pickups := [])
      {
        kept, views := SweepAt(k, kept, views, w0, height, slow);
        k := k + 1;
      }
      assert w0.pickups[..k] == w0.pickups;
    }

    /** Power-up k's turn within the sweep: the kept list grows by it when
        it neither fell nor was collected. */
    method SweepAt(k: nat, kept: seq<PowerUp>, ghost views: seq<Pickup>, ghost w0: World,
                   height: int, slow: Ball -> Ball)
      returns (kept': seq<PowerUp>, ghost views': seq<Pickup>)
      requires Valid() && k < |powerUps| && |w0.pickups| == |powerUps|
      requires forall m :: k <= m < |powerUps| ==> powerUps[m].View() == w0.pickups[m]
      requires Distinct(kept) && forall q :: q in kept ==> q in powerUps[..k]
      requires |kept| == |views| && forall i :: 0 <= i < |kept| ==> kept[i].View() == views[i]
      requires views == SweepUpTo(w0, w0.pickups[..k], height, slow).kept
      requires Core() == SweepUpTo(w0, w0.pickups[..k], height, slow).world.(pickups := [])
      modifies powerUps[k], this, paddle, scoreManager
      ensures Valid() && powerUps == old(powerUps) && brickField == old(brickField) && paddle == old(paddle)
      ensures forall m :: k < m < |powerUps| ==> powerUps[m].View() == w0.pickups[m]
      ensures Distinct(kept') && forall q :: q in kept' ==> q in powerUps[..k + 1]
      ensures |kept'| == |views'| && forall i :: 0 <= i < |kept'| ==> kept'[i].View() == views'[i]
      ensures views' == SweepUpTo(w0, w0.pickups[..k + 1], height, slow).kept
      ensures Core() == SweepUpTo(w0, w0.pickups[..k + 1], height, slow).world.(pickups := [])
    {
      SweepUpToStep(w0, w0.pickups, k, height, slow);
      var pu := powerUps[k];
      assert powerUps[..k + 1] == powerUps[..k] + [pu];
      assert pu !in kept;
      var keep := SweepOne(pu, height, slow);
      kept', views' := kept, views;
      if keep {
        kept', views' := kept + [pu], views + [pu.View()];
      }
    }
  }
}
