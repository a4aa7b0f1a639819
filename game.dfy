/** The rules of the game as a single-threaded state machine over a world
    value: one transition per update phase (lost balls, brick collisions,
    power-ups), the four power-up effects, the input handlers, reset and the
    victory latch. The random draws, the screen height, the physics' verdict
    on which balls fell out, the ball-brick intersection test and the
    slow-down of a ball are parameters. */
module Game {
  import opened Wrappers
  import opened Entities
  import opened BrickFields
  import opened PowerUps
  import Paddles

  const KeySpace := 32
  const KeyR := 82

  const StartLives := 3
  const FieldRows := 8
  const FieldCols := 8
  const StartPaddle := Rect(350, 530, 100, 15)
  const PickupBonus := 25
  const WidenBy := 30
  /** Percent chance that a destroyed brick drops a power-up. */
  const SpawnChance := 25

  /** The whole mutable game state. */
  datatype World = World(
    paddle: Rect,
    balls: seq<Ball>,
    grid: Grid,
    score: int,
    pickups: seq<Pickup>,
    running: bool,
    paused: bool,
    over: bool,
    lives: int)

  /** An update phase does its work only while the game runs, is not paused
      (a paused phase is blocked waiting) and is not over. */
  predicate Acts(w: World)
  {
    w.running && !w.paused && !w.over
  }

  /* ---------- start, reset and input ---------- */

  /** The state a fresh game starts in. */
  function Initial(): World
  {
    World(StartPaddle, [StartBall], InitialGrid(FieldRows, FieldCols), 0, [], true, false, false, StartLives)
  }

  /** Reset rebuilds everything except the running flag. */
  function Reset(w: World): World
  {
    w.(paddle := StartPaddle, balls := [StartBall], grid := InitialGrid(FieldRows, FieldCols),
       score := 0, pickups := [], paused := false, over := false, lives := StartLives)
  }

  /** Pointer motion recentres the paddle, but only while running and not paused. */
  function MouseMoved(w: World, pointerX: int): World
  {
    if w.running && !w.paused then w.(paddle := w.paddle.(x := Paddles.CentredX(pointerX, w.paddle.width)))
    else w
  }

  /** SPACE toggles pause; R restarts, but only once the game is over. */
  function KeyPressed(w: World, code: int): World
  {
    if code == KeySpace then w.(paused := !w.paused)
    else if code == KeyR && w.over then Reset(w)
    else w
  }

  /** The victory latch: an empty field ends the game. */
  function Victory(w: World): World
  {
    if AllInactive(w.grid) && !w.over then w.(over := true) else w
  }

  /* ---------- lost balls ---------- */

  /** The balls the physics did not flag as lost, in their order. */
  function Survivors(balls: seq<Ball>, lost: seq<bool>): seq<Ball>
    requires |lost| == |balls|
    decreases |balls|
  {
    if balls == [] then []
    else
      var n := |balls| - 1;
      Survivors(balls[..n], lost[..n]) + (if lost[n] then [] else [balls[n]])
  }

  /** The lost-ball part of a physics tick: drop the lost balls; if none are
      left, lose a life and either end the game or serve a fresh ball. */
  function LoseBalls(w: World, lost: seq<bool>): World
    requires |lost| == |w.balls|
  {
    if !Acts(w) || true !in lost then w
    else
      var kept := Survivors(w.balls, lost);
      if kept != [] then w.(balls := kept)
      else if w.lives - 1 <= 0 then w.(balls := [], lives := w.lives - 1, over := true)
      else w.(balls := [StartBall], lives := w.lives - 1)
  }

  /* ---------- power-up effects ---------- */

  /** The two balls a multi-ball pickup adds for one ball: same place and
      size, velocity scaled by 0.9/1.1 and by 1.1/0.9. */
  function Split(b: Ball): seq<Ball>
  {
    [b.(vx := b.vx * 0.9, vy := b.vy * 1.1), b.(vx := b.vx * 1.1, vy := b.vy * 0.9)]
  }

  /** The balls appended for the given originals, two per original, in order. */
  function Copies(bs: seq<Ball>): seq<Ball>
    decreases |bs|
  {
    if bs == [] then [] else Copies(bs[..|bs| - 1]) + Split(bs[|bs| - 1])
  }

  function SlowAll(bs: seq<Ball>, slow: Ball -> Ball): seq<Ball>
  {
    seq(|bs|, i requires 0 <= i < |bs| => slow(bs[i]))
  }

  /** What collecting a power-up of the given kind does, bonus included. */
  function Activate(w: World, kind: Kind, slow: Ball -> Ball): World
  {
    var w' := match kind
      case MultiBall => w.(balls := w.balls + Copies(w.balls))
      case ExtraLife => w.(lives := w.lives + 1)
      case WiderPaddle => w.(paddle := w.paddle.(width := w.paddle.width + WidenBy))
      case SlowBall => w.(balls := SlowAll(w.balls, slow));
    w'.(score := w'.score + PickupBonus)
  }

  /* ---------- brick collisions ---------- */

  /** The two random draws of a spawn: the percent roll in [0, 100) and the
      kind index in [0, 4). */
  datatype Draw = Draw(chance: int, kind: int)

  predicate ValidDraw(d: Draw)
  {
    0 <= d.chance < 100 && 0 <= d.kind < |Kinds|
  }

  /** Drop a power-up at (x, y) with a 25 percent chance. */
  function Spawn(ps: seq<Pickup>, x: int, y: int, d: Draw): seq<Pickup>
    requires ValidDraw(d)
  {
    if d.chance < SpawnChance then ps + [Pickup(x, y, KindAt(d.kind))] else ps
  }

  /** The ball-brick test specialised to one ball. */
  function HitBy(intersects: (Ball, Brick) -> bool, ball: Ball): Brick -> bool
  {
    b => intersects(ball, b)
  }

  /** Ball k asks the field for a collision; a destroyed brick bounces the
      ball, scores its points and may drop a power-up at its centre. */
  function BallHit(w: World, k: nat, intersects: (Ball, Brick) -> bool, d: Draw): World
    requires k < |w.balls| && ValidDraw(d)
  {
    var ball := w.balls[k];
    var c := Collide(w.grid, HitBy(intersects, ball));
    match c.hit
    case None => w
    case Some(brick) => Scored(w.(grid := c.grid), k, brick, d)
  }

  /** What a destroyed brick does to the world: ball k bounces, the brick's
      points are scored and a power-up may drop at the brick's centre. */
  function Scored(w: World, k: nat, brick: Brick, d: Draw): World
    requires k < |w.balls| && ValidDraw(d)
  {
    w.(balls := w.balls[k := ReverseY(w.balls[k])], score := w.score + brick.points,
       pickups := Spawn(w.pickups, brick.x + JavaHalf(brick.width), brick.y + JavaHalf(brick.height), d))
  }

  predicate ValidDraws(draws: seq<Draw>)
  {
    forall k :: 0 <= k < |draws| ==> ValidDraw(draws[k])
  }

  /** The first k balls, in list order, have had their collision query. */
  function CollideUpTo(w: World, intersects: (Ball, Brick) -> bool, draws: seq<Draw>, k: nat): (r: World)
    requires |draws| == |w.balls| && ValidDraws(draws) && k <= |w.balls|
    ensures |r.balls| == |w.balls|
    decreases k
  {
    if k == 0 then w else BallHit(CollideUpTo(w, intersects, draws, k - 1), k - 1, intersects, draws[k - 1])
  }

  /** One tick of the brick-collision phase: every ball, in order, with one draw each. */
  function BrickPhase(w: World, intersects: (Ball, Brick) -> bool, draws: seq<Draw>): World
    requires |draws| == |w.balls| && ValidDraws(draws)
  {
    if Acts(w) then CollideUpTo(w, intersects, draws, |w.balls|) else w
  }

  /* ---------- power-ups falling and being collected ---------- */

  datatype Swept = Swept(world: World, kept: seq<Pickup>)

  /** One power-up of the sweep: it falls; below the screen it is dropped,
      touching the paddle it is collected, otherwise it is kept. */
  function SweepStep(s: Swept, p0: Pickup, height: int, slow: Ball -> Ball): Swept
  {
    var p := Moved(p0);
    if p.y > height then s
    else if Touches(p, s.world.paddle) then Swept(Activate(s.world, p.kind, slow), s.kept)
    else Swept(s.world, s.kept + [p])
  }

  /** The given power-ups swept in order. */
  function SweepUpTo(w: World, ps: seq<Pickup>, height: int, slow: Ball -> Ball): Swept
    decreases |ps|
  {
    if ps == [] then Swept(w, [])
    else SweepStep(SweepUpTo(w, ps[..|ps| - 1], height, slow), ps[|ps| - 1], height, slow)
  }

  /** One tick of the power-up phase. */
  function PowerUpPhase(w: World, height: int, slow: Ball -> Ball): World
  {
    if Acts(w) then
      var s := SweepUpTo(w, w.pickups, height, slow);
      s.world.(pickups := s.kept)
    else w
  }

  /* ==================== properties ==================== */

  /* ---------- guards ---------- */

  /** No update phase changes anything while the game is over, paused or not running. */
  lemma PhasesIdleUnlessActing(w: World, lost: seq<bool>, intersects: (Ball, Brick) -> bool,
                               draws: seq<Draw>, height: int, slow: Ball -> Ball)
    requires |lost| == |w.balls| && |draws| == |w.balls| && ValidDraws(draws)
    requires !Acts(w)
    ensures LoseBalls(w, lost) == w
    ensures BrickPhase(w, intersects, draws) == w
    ensures PowerUpPhase(w, height, slow) == w
  {
  }

  /** The paddle follows the pointer only while running and not paused, and
      then only its left edge changes, to centre it on the pointer. */
  lemma MouseMovedSpec(w: World, pointerX: int)
    ensures !(w.running && !w.paused) ==> MouseMoved(w, pointerX) == w
    ensures w.running && !w.paused ==>
      MouseMoved(w, pointerX) == w.(paddle := Rect(pointerX - JavaHalf(w.paddle.width), w.paddle.y, w.paddle.width, w.paddle.height))
  {
  }

  /* ---------- reset and keys ---------- */

  /** Reset gives three lives, no score, one ball at the start state, a full
      8-by-8 field, the start paddle, no power-ups, and clears pause and
      game over; only the running flag is kept. */
  lemma ResetSpec(w: World)
    ensures var r := Reset(w);
      r.lives == 3 && r.score == 0 && r.balls == [Ball(400.0, 400.0, 10.0, 3.0, -3.0)] &&
      r.paddle == Rect(350, 530, 100, 15) && r.pickups == [] &&
      !r.paused && !r.over && r.running == w.running &&
      |r.grid| == 8 && ActiveCount(r.grid) == 64 && !AllInactive(r.grid)
  {
    InitialGridFull(FieldRows, FieldCols);
  }

  /** R restarts exactly when the game is over; any other key but SPACE does nothing. */
  lemma KeyRSpec(w: World)
    ensures w.over ==> KeyPressed(w, KeyR) == Reset(w)
    ensures !w.over ==> KeyPressed(w, KeyR) == w
  {
  }

  /** SPACE flips pause and nothing else; pressing it twice changes nothing. */
  lemma KeySpaceSpec(w: World)
    ensures KeyPressed(w, KeySpace).paused == !w.paused
    ensures KeyPressed(w, KeySpace).(paused := w.paused) == w
    ensures KeyPressed(KeyPressed(w, KeySpace), KeySpace) == w
  {
  }

  /** Game over is cleared only by reset: every other transition keeps it set. */
  lemma GameOverIsSticky(w: World, lost: seq<bool>, intersects: (Ball, Brick) -> bool,
                         draws: seq<Draw>, height: int, slow: Ball -> Ball, pointerX: int, code: int)
    requires |lost| == |w.balls| && |draws| == |w.balls| && ValidDraws(draws)
    requires w.over
    ensures LoseBalls(w, lost).over && BrickPhase(w, intersects, draws).over
    ensures PowerUpPhase(w, height, slow).over && MouseMoved(w, pointerX).over && Victory(w).over
    ensures !KeyPressed(w, code).over <==> code == KeyR
  {
  }

  /* ---------- victory ---------- */

  /** The latch sets game over exactly when the field is empty, never clears
      it, changes nothing else, and a second check changes nothing. */
  lemma VictorySpec(w: World)
    ensures Victory(w).over <==> w.over || AllInactive(w.grid)
    ensures Victory(w).(over := w.over) == w
    ensures Victory(Victory(w)) == Victory(w)
  {
  }

  /* ---------- lost balls ---------- */

  /** The survivors are exactly the balls not flagged as lost; none survive
      exactly when every ball is lost. */
  lemma {:induction false} SurvivorsSpec(balls: seq<Ball>, lost: seq<bool>)
    requires |lost| == |balls|
    ensures Survivors(balls, lost) == [] <==> forall i :: 0 <= i < |lost| ==> lost[i]
    ensures forall i :: 0 <= i < |balls| && !lost[i] ==> balls[i] in Survivors(balls, lost)
    ensures forall b :: b in Survivors(balls, lost) ==> exists i :: 0 <= i < |balls| && !lost[i] && balls[i] == b
    decreases |balls|
  {
    if balls != [] {
      var n := |balls| - 1;
      SurvivorsSpec(balls[..n], lost[..n]);
      assert balls[..|balls| - 1] == balls[..n];
      forall i | 0 <= i < n ensures balls[..n][i] == balls[i] && lost[..n][i] == lost[i] { }
    }
  }

  /** The survivors keep their relative order. */
  lemma {:induction false} SurvivorsOrder(balls: seq<Ball>, lost: seq<bool>)
    requires |lost| == |balls|
    ensures IsSubseq(Survivors(balls, lost), balls)
    decreases |balls|
  {
    if balls != [] {
      var n := |balls| - 1;
      SurvivorsOrder(balls[..n], lost[..n]);
      var s := Survivors(balls[..n], lost[..n]);
      assert balls[..|balls| - 1] == balls[..n];
      if lost[n] {
        assert Survivors(balls, lost) == s;
      } else {
        var s' := s + [balls[n]];
        assert Survivors(balls, lost) == s';
        assert s'[..|s'| - 1] == s && s'[|s'| - 1] == balls[|balls| - 1];
      }
    }
  }

  /** The positions of the balls not flagged as lost, in increasing order:
      an independent description of which balls survive. */
  function Unflagged(lost: seq<bool>): seq<nat>
    decreases |lost|
  {
    if lost == [] then []
    else
      var n := |lost| - 1;
      Unflagged(lost[..n]) + (if lost[n] then [] else [n])
  }

  /** Unflagged lists every unflagged position exactly once, in increasing
      order, and nothing else; there are as many as there are false flags. */
  lemma {:induction false} UnflaggedSpec(lost: seq<bool>)
    ensures forall m :: 0 <= m < |Unflagged(lost)| ==> Unflagged(lost)[m] < |lost| && !lost[Unflagged(lost)[m]]
    ensures forall m, m' :: 0 <= m < m' < |Unflagged(lost)| ==> Unflagged(lost)[m] < Unflagged(lost)[m']
    ensures forall i :: 0 <= i < |lost| && !lost[i] ==> i in Unflagged(lost)
    ensures |Unflagged(lost)| == |lost| - multiset(lost)[true]
    decreases |lost|
  {
    if lost != [] {
      var n := |lost| - 1;
      UnflaggedSpec(lost[..n]);
      assert lost == lost[..n] + [lost[n]];
      assert multiset(lost) == multiset(lost[..n]) + multiset([lost[n]]);
      forall i | 0 <= i < n ensures lost[..n][i] == lost[i] { }
    }
  }

  /** The survivors are the balls at the unflagged positions, one for one and
      in order; so exactly one ball goes per lost flag. */
  lemma {:induction false} SurvivorsPicked(balls: seq<Ball>, lost: seq<bool>)
    requires |lost| == |balls|
    ensures |Survivors(balls, lost)| == |Unflagged(lost)| == |balls| - multiset(lost)[true]
    ensures forall m :: 0 <= m < |Unflagged(lost)| ==>
      Unflagged(lost)[m] < |balls| && Survivors(balls, lost)[m] == balls[Unflagged(lost)[m]]
    decreases |balls|
  {
    if balls != [] {
      var n := |balls| - 1;
      SurvivorsPicked(balls[..n], lost[..n]);
      assert balls[..|balls| - 1] == balls[..n];
      assert lost[..|lost| - 1] == lost[..n];
      var s, u := Survivors(balls[..n], lost[..n]), Unflagged(lost[..n]);
      assert forall m :: 0 <= m < |u| ==> u[m] < n && s[m] == balls[u[m]] by {
        forall m | 0 <= m < |u| ensures u[m] < n && s[m] == balls[u[m]] {
          assert balls[..n][u[m]] == balls[u[m]];
        }
      }
      if lost[n] {
        assert Survivors(balls, lost) == s && Unflagged(lost) == u;
      } else {
        assert Survivors(balls, lost) == s + [balls[n]] && Unflagged(lost) == u + [n];
      }
    }
    UnflaggedSpec(lost);
  }

  /** Lost-ball step: nothing lost changes nothing; if balls remain only the
      lost ones go and lives are kept; if none remain a life is lost and the
      game either ends (no lives left) or serves exactly one start ball. */
  lemma LoseBallsSpec(w: World, lost: seq<bool>)
    requires |lost| == |w.balls| && Acts(w)
    ensures (forall i :: 0 <= i < |lost| ==> !lost[i]) ==> LoseBalls(w, lost) == w
    ensures (exists i :: 0 <= i < |lost| && lost[i]) && (exists i :: 0 <= i < |lost| && !lost[i]) ==>
      LoseBalls(w, lost) == w.(balls := Survivors(w.balls, lost))
    ensures (forall i :: 0 <= i < |lost| ==> lost[i]) && |lost| > 0 ==>
      var r := LoseBalls(w, lost);
      r.lives == w.lives - 1 &&
      (r.over <==> w.lives <= 1) &&
      r.balls == (if r.over then [] else [StartBall]) &&
      r.(balls := w.balls, lives := w.lives, over := w.over) == w
  {
    SurvivorsSpec(w.balls, lost);
    if exists i :: 0 <= i < |lost| && lost[i] {
      var i :| 0 <= i < |lost| && lost[i];
      assert true in lost;
    } else {
      assert true !in lost;
    }
  }

  /* ---------- the playable invariant ---------- */

  predicate PointsNonNegative(g: Grid)
  {
    forall i, j :: 0 <= i < |g| && 0 <= j < |g[i]| ==> g[i][j].points >= 0
  }

  /** While the game is not over there is a life and a ball in play; the
      score is never negative and no brick is worth negative points. */
  predicate Playable(w: World)
  {
    w.lives >= 0 && (w.over || (w.lives >= 1 && w.balls != [])) &&
    w.score >= 0 && PointsNonNegative(w.grid)
  }

  lemma InitialPlayable()
    ensures Playable(Initial())
    ensures Initial() == Reset(Initial())
  {
  }

  lemma ResetPlayable(w: World)
    ensures Playable(Reset(w))
  {
  }

  lemma LoseBallsPlayable(w: World, lost: seq<bool>)
    requires |lost| == |w.balls| && Playable(w)
    ensures Playable(LoseBalls(w, lost))
  {
  }

  lemma {:induction false} CopiesLength(bs: seq<Ball>)
    ensures |Copies(bs)| == 2 * |bs|
    decreases |bs|
  {
    if bs != [] {
      CopiesLength(bs[..|bs| - 1]);
    }
  }

  lemma ActivatePlayable(w: World, kind: Kind, slow: Ball -> Ball)
    requires Playable(w)
    ensures Playable(Activate(w, kind, slow))
  {
    CopiesLength(w.balls);
  }

  /* ---------- power-up effects ---------- */

  /** Multi-ball with n balls gives 3n: the originals untouched and first,
      then for each original in order two copies at its position and size,
      with velocities scaled by (0.9, 1.1) and (1.1, 0.9). */
  lemma {:induction false} CopiesSpec(bs: seq<Ball>)
    ensures |Copies(bs)| == 2 * |bs|
    ensures forall i :: 0 <= i < |bs| ==>
      var b, c0, c1 := bs[i], Copies(bs)[2 * i], Copies(bs)[2 * i + 1];
      c0 == Ball(b.x, b.y, b.size, b.vx * 0.9, b.vy * 1.1) &&
      c1 == Ball(b.x, b.y, b.size, b.vx * 1.1, b.vy * 0.9)
    decreases |bs|
  {
    if bs != [] {
      var n := |bs| - 1;
      CopiesSpec(bs[..n]);
      forall i | 0 <= i < n ensures bs[..n][i] == bs[i] { }
    }
  }

  lemma MultiBallSpec(w: World, slow: Ball -> Ball)
    ensures var r := Activate(w, MultiBall, slow); var n := |w.balls|;
      |r.balls| == 3 * n && r.balls[..n] == w.balls &&
      (forall i :: 0 <= i < n ==>
        r.balls[n + 2 * i].x == w.balls[i].x && r.balls[n + 2 * i].y == w.balls[i].y &&
        r.balls[n + 2 * i].size == w.balls[i].size &&
        r.balls[n + 2 * i + 1].x == w.balls[i].x && r.balls[n + 2 * i + 1].y == w.balls[i].y &&
        r.balls[n + 2 * i + 1].size == w.balls[i].size) &&
      r.lives == w.lives && r.paddle == w.paddle && r.grid == w.grid && r.pickups == w.pickups
  {
    CopiesSpec(w.balls);
    var n := |w.balls|;
    var r := Activate(w, MultiBall, slow);
    forall i | 0 <= i < n
      ensures r.balls[n + 2 * i] == Copies(w.balls)[2 * i] && r.balls[n + 2 * i + 1] == Copies(w.balls)[2 * i + 1]
    { }
  }

  /** Extra life adds one life, wider paddle adds 30 to the width, slow ball
      keeps the ball count and slows every ball; every kind adds 25 points;
      nothing else changes. */
  lemma ActivateSpec(w: World, kind: Kind, slow: Ball -> Ball)
    ensures Activate(w, kind, slow).score == w.score + 25
    ensures Activate(w, kind, slow).pickups == w.pickups && Activate(w, kind, slow).grid == w.grid
    ensures kind == ExtraLife ==> Activate(w, kind, slow) == w.(lives := w.lives + 1, score := w.score + 25)
    ensures kind == WiderPaddle ==>
      Activate(w, kind, slow) == w.(paddle := w.paddle.(width := w.paddle.width + 30), score := w.score + 25)
    ensures kind == SlowBall ==>
      var r := Activate(w, kind, slow);
      |r.balls| == |w.balls| && (forall i :: 0 <= i < |w.balls| ==> r.balls[i] == slow(w.balls[i])) &&
      r.(balls := w.balls) == w.(score := w.score + 25)
    ensures kind != MultiBall ==> |Activate(w, kind, slow).balls| == |w.balls|
  {
  }

  /** The effects never read or write the power-up list. */
  lemma ActivateIgnoresPickups(w: World, kind: Kind, slow: Ball -> Ball, ps: seq<Pickup>)
    ensures Activate(w.(pickups := ps), kind, slow) == Activate(w, kind, slow).(pickups := ps)
  {
  }

  /** One more power-up of the sweep, taken on its own: it changes the world
      apart from its power-up list exactly as it would starting from an empty
      kept list, and adds to the kept list what it adds there. */
  lemma {:induction false} SweepUpToStep(w: World, ps: seq<Pickup>, k: nat, height: int, slow: Ball -> Ball)
    requires k < |ps|
    ensures var before := SweepUpTo(w, ps[..k], height, slow);
            var one := SweepStep(Swept(before.world.(pickups := []), []), ps[k], height, slow);
            var after := SweepUpTo(w, ps[..k + 1], height, slow);
            after.world.(pickups := []) == one.world && after.kept == before.kept + one.kept
  {
    assert ps[..k + 1][..k] == ps[..k];
    var before := SweepUpTo(w, ps[..k], height, slow);
    ActivateIgnoresPickups(before.world, Moved(ps[k]).kind, slow, []);
  }

  /* ---------- brick-collision phase ---------- */

  /** One ball's query: the field loses at most one brick, the score grows by
      that brick's points, and a power-up appears at the brick's centre
      exactly when a brick was destroyed and the roll is below 25. */
  lemma BallHitSpec(w: World, k: nat, intersects: (Ball, Brick) -> bool, d: Draw)
    requires k < |w.balls| && ValidDraw(d)
    ensures var r := BallHit(w, k, intersects, d);
      var c := Collide(w.grid, HitBy(intersects, w.balls[k]));
      r.grid == c.grid &&
      r.score == w.score + (if c.hit.Some? then c.hit.value.points else 0) &&
      ActivePoints(r.grid) + r.score == ActivePoints(w.grid) + w.score &&
      ActiveCount(r.grid) == ActiveCount(w.grid) - (if c.hit.Some? then 1 else 0) &&
      (c.hit.None? ==> r == w) &&
      (c.hit.Some? ==>
        r.balls == w.balls[k := ReverseY(w.balls[k])] &&
        (d.chance < 25 <==> |r.pickups| == |w.pickups| + 1) &&
        (d.chance < 25 ==> r.pickups == w.pickups + [Pickup(c.hit.value.x + JavaHalf(c.hit.value.width),
                                                           c.hit.value.y + JavaHalf(c.hit.value.height),
                                                           KindAt(d.kind))]) &&
        (d.chance >= 25 ==> r.pickups == w.pickups))
  {
    CollideCounts(w.grid, HitBy(intersects, w.balls[k]));
  }

  /** Score plus the points still on the field is conserved by the whole
      brick phase: every destroyed brick's points move into the score. The
      active brick count drops by at most one per ball. */
  lemma {:induction false} CollideUpToConserves(w: World, intersects: (Ball, Brick) -> bool, draws: seq<Draw>, k: nat)
    requires |draws| == |w.balls| && ValidDraws(draws) && k <= |w.balls|
    ensures var r := CollideUpTo(w, intersects, draws, k);
      r.score + ActivePoints(r.grid) == w.score + ActivePoints(w.grid) &&
      ActiveCount(w.grid) - k <= ActiveCount(r.grid) <= ActiveCount(w.grid) &&
      r.lives == w.lives && r.over == w.over && r.paddle == w.paddle
    decreases k
  {
    if k > 0 {
      CollideUpToConserves(w, intersects, draws, k - 1);
      BallHitSpec(CollideUpTo(w, intersects, draws, k - 1), k - 1, intersects, draws[k - 1]);
    }
  }

  lemma BrickPhaseConserves(w: World, intersects: (Ball, Brick) -> bool, draws: seq<Draw>)
    requires |draws| == |w.balls| && ValidDraws(draws)
    ensures var r := BrickPhase(w, intersects, draws);
      r.score + ActivePoints(r.grid) == w.score + ActivePoints(w.grid) &&
      ActiveCount(w.grid) - |w.balls| <= ActiveCount(r.grid) <= ActiveCount(w.grid) &&
      |r.balls| == |w.balls| && r.lives == w.lives && r.over == w.over && r.paddle == w.paddle
  {
    CollideUpToConserves(w, intersects, draws, |w.balls|);
  }

  /** Collisions never make a brick active or change a brick's points. */
  lemma {:induction false} CollideUpToMonotone(w: World, intersects: (Ball, Brick) -> bool, draws: seq<Draw>, k: nat)
    requires |draws| == |w.balls| && ValidDraws(draws) && k <= |w.balls|
    ensures var g := CollideUpTo(w, intersects, draws, k).grid;
      |g| == |w.grid| && (forall i :: 0 <= i < |g| ==> |g[i]| == |w.grid[i]|) &&
      forall i, j :: InGrid(w.grid, i, j) ==>
        InGrid(g, i, j) && g[i][j].points == w.grid[i][j].points && (g[i][j].active ==> w.grid[i][j].active)
    decreases k
  {
    if k > 0 {
      CollideUpToMonotone(w, intersects, draws, k - 1);
      var v := CollideUpTo(w, intersects, draws, k - 1);
      var hit := HitBy(intersects, v.balls[k - 1]);
      CollideNeverActivates(v.grid, hit);
      if Collide(v.grid, hit).hit.Some? {
        CollideHit(v.grid, hit);
      }
    }
  }

  /** With no brick worth negative points the brick phase never lowers the
      score, and keeps the world playable. */
  lemma BrickPhasePlayable(w: World, intersects: (Ball, Brick) -> bool, draws: seq<Draw>)
    requires |draws| == |w.balls| && ValidDraws(draws) && Playable(w)
    ensures BrickPhase(w, intersects, draws).score >= w.score
    ensures Playable(BrickPhase(w, intersects, draws))
  {
    if Acts(w) {
      var r := BrickPhase(w, intersects, draws);
      CollideUpToConserves(w, intersects, draws, |w.balls|);
      CollideUpToMonotone(w, intersects, draws, |w.balls|);
      assert ActivePoints(r.grid) <= ActivePoints(w.grid) by {
        RowsPointsShrink(w.grid, r.grid);
      }
    }
  }

  lemma {:induction false} RowPointsShrink(a: seq<Brick>, b: seq<Brick>)
    requires |a| == |b|
    requires forall j :: 0 <= j < |a| ==> a[j].points >= 0 && b[j].points == a[j].points && (b[j].active ==> a[j].active)
    ensures Sum(b, ActiveValue) <= Sum(a, ActiveValue)
    decreases |a|
  {
    if a != [] {
      var n := |a| - 1;
      RowPointsShrink(a[..n], b[..n]);
    }
  }

  lemma {:induction false} RowsPointsShrink(g: Grid, h: Grid)
    requires |g| == |h| && PointsNonNegative(g)
    requires forall i, j :: InGrid(g, i, j) ==>
      InGrid(h, i, j) && h[i][j].points == g[i][j].points && (h[i][j].active ==> g[i][j].active)
    requires forall i :: 0 <= i < |g| ==> |h[i]| == |g[i]|
    ensures ActivePoints(h) <= ActivePoints(g)
    decreases |g|
  {
    if g != [] {
      var n := |g| - 1;
      RowsPointsShrink(g[..n], h[..n]);
      RowPointsShrink(g[n], h[n]);
    }
  }

  /** Over an empty field no ball can destroy a brick, so the brick phase
      changes nothing at all. */
  lemma {:induction false} EmptyFieldIdle(w: World, intersects: (Ball, Brick) -> bool, draws: seq<Draw>, k: nat)
    requires |draws| == |w.balls| && ValidDraws(draws) && k <= |w.balls|
    requires AllInactive(w.grid)
    ensures CollideUpTo(w, intersects, draws, k) == w
    decreases k
  {
    if k > 0 {
      EmptyFieldIdle(w, intersects, draws, k - 1);
      EmptyStaysEmpty(w.grid, HitBy(intersects, w.balls[k - 1]));
    }
  }

  /* ---------- power-up phase ---------- */

  /** a is a subsequence of b: b with some elements left out, order kept. */
  predicate IsSubseq<T(==)>(a: seq<T>, b: seq<T>)
    decreases |b|
  {
    a == [] ||
    (b != [] &&
     (IsSubseq(a, b[..|b| - 1]) || (a[|a| - 1] == b[|b| - 1] && IsSubseq(a[..|a| - 1], b[..|b| - 1]))))
  }

  function MovedAll(ps: seq<Pickup>): seq<Pickup>
  {
    seq(|ps|, i requires 0 <= i < |ps| => Moved(ps[i]))
  }

  /** How many of the power-ups fall off screen on this tick. */
  function CountFallen(ps: seq<Pickup>, height: int): nat
    decreases |ps|
  {
    if ps == [] then 0
    else CountFallen(ps[..|ps| - 1], height) + (if Moved(ps[|ps| - 1]).y > height then 1 else 0)
  }

  /** The sweep keeps, in their relative order, moved power-ups still on
      screen. */
  lemma {:induction false} SweepKept(w: World, ps: seq<Pickup>, height: int, slow: Ball -> Ball)
    ensures var s := SweepUpTo(w, ps, height, slow);
      IsSubseq(s.kept, MovedAll(ps)) && forall p :: p in s.kept ==> p.y <= height
    decreases |ps|
  {
    if ps != [] {
      var n := |ps| - 1;
      SweepKept(w, ps[..n], height, slow);
      var s := SweepUpTo(w, ps[..n], height, slow);
      var p := Moved(ps[n]);
      var m := MovedAll(ps);
      assert m[..|m| - 1] == MovedAll(ps[..n]);
      assert m[|m| - 1] == p;
      if p.y <= height && !Touches(p, s.world.paddle) {
        assert (s.kept + [p])[..|s.kept|] == s.kept;
      }
    }
  }

  /** Every power-up not kept either fell off or was collected, and each
      collection added exactly 25 points. */
  lemma {:induction false} SweepScore(w: World, ps: seq<Pickup>, height: int, slow: Ball -> Ball)
    ensures var s := SweepUpTo(w, ps, height, slow);
      |s.kept| + CountFallen(ps, height) <= |ps| &&
      s.world.score == w.score + 25 * (|ps| - |s.kept| - CountFallen(ps, height))
    decreases |ps|
  {
    if ps != [] {
      var n := |ps| - 1;
      SweepScore(w, ps[..n], height, slow);
      var s := SweepUpTo(w, ps[..n], height, slow);
      ActivateSpec(s.world, Moved(ps[n]).kind, slow);
    }
  }

  /** The sweep leaves lives and the paddle width no lower, keeps at least as
      many balls, and does not touch the field, the power-up list or the flags. */
  lemma {:induction false} SweepWorld(w: World, ps: seq<Pickup>, height: int, slow: Ball -> Ball)
    ensures var r := SweepUpTo(w, ps, height, slow).world;
      r.lives >= w.lives && r.paddle.width >= w.paddle.width && |r.balls| >= |w.balls| &&
      r.grid == w.grid && r.pickups == w.pickups &&
      r.over == w.over && r.paused == w.paused && r.running == w.running
    decreases |ps|
  {
    if ps != [] {
      var n := |ps| - 1;
      SweepWorld(w, ps[..n], height, slow);
      SweepStepWorld(SweepUpTo(w, ps[..n], height, slow), ps[n], height, slow);
    }
  }

  /** SweepWorld for a single power-up. */
  lemma SweepStepWorld(s: Swept, p: Pickup, height: int, slow: Ball -> Ball)
    ensures var w, r := s.world, SweepStep(s, p, height, slow).world;
      r.lives >= w.lives && r.paddle.width >= w.paddle.width && |r.balls| >= |w.balls| &&
      r.grid == w.grid && r.pickups == w.pickups &&
      r.over == w.over && r.paused == w.paused && r.running == w.running
  {
    var q := Moved(p);
    if q.y <= height && Touches(q, s.world.paddle) {
      ActivateKeeps(s.world, q.kind, slow);
    }
  }

  /** No effect lowers lives, the paddle width or the ball count, none moves
      the paddle or changes its height, and none touches the field, the
      power-up list or the flags. */
  lemma ActivateKeeps(w: World, kind: Kind, slow: Ball -> Ball)
    ensures var r := Activate(w, kind, slow);
      r.lives >= w.lives && Widened(w.paddle, r.paddle) && |r.balls| >= |w.balls| &&
      r.grid == w.grid && r.pickups == w.pickups &&
      r.over == w.over && r.paused == w.paused && r.running == w.running
  {
    match kind
    case MultiBall => CopiesLength(w.balls);
    case _ =>
  }

  /** b is a, possibly made wider: same place and height, right edge no
      further left. */
  predicate Widened(a: Rect, b: Rect)
  {
    b == a.(width := b.width) && b.width >= a.width
  }

  /** Widening the paddle can only add power-ups that touch it. */
  lemma TouchesWider(p: Pickup, a: Rect, b: Rect)
    requires Widened(a, b)
    ensures Touches(p, a) ==> Touches(p, b)
  {
  }

  /** How many of the power-ups, once moved, are still on screen and touch the
      given paddle. */
  function CountCaught(ps: seq<Pickup>, height: int, paddle: Rect): nat
    decreases |ps|
  {
    if ps == [] then 0
    else
      var p := Moved(ps[|ps| - 1]);
      CountCaught(ps[..|ps| - 1], height, paddle) + (if p.y <= height && Touches(p, paddle) then 1 else 0)
  }

  /** A wider paddle catches at least as many. */
  lemma {:induction false} CountCaughtWider(ps: seq<Pickup>, height: int, a: Rect, b: Rect)
    requires Widened(a, b)
    ensures CountCaught(ps, height, a) <= CountCaught(ps, height, b)
    decreases |ps|
  {
    if ps != [] {
      CountCaughtWider(ps[..|ps| - 1], height, a, b);
      TouchesWider(Moved(ps[|ps| - 1]), a, b);
    }
  }

  /** The collection rule: a kept power-up does not touch the paddle as it
      was when the sweep began, and the paddle can only have widened; so the
      number collected is at least the number touching the starting paddle
      and at most the number touching the final one. */
  lemma {:induction false} SweepCollects(w: World, ps: seq<Pickup>, height: int, slow: Ball -> Ball)
    ensures var s := SweepUpTo(w, ps, height, slow);
      Widened(w.paddle, s.world.paddle) &&
      (forall p :: p in s.kept ==> !Touches(p, w.paddle)) &&
      CountCaught(ps, height, w.paddle) <= |ps| - |s.kept| - CountFallen(ps, height) <= CountCaught(ps, height, s.world.paddle)
    decreases |ps|
  {
    if ps != [] {
      var n := |ps| - 1;
      SweepCollects(w, ps[..n], height, slow);
      SweepCollectsStep(w, ps, height, slow);
    }
  }

  /** The inductive step of SweepCollects: the last power-up of ps. */
  lemma SweepCollectsStep(w: World, ps: seq<Pickup>, height: int, slow: Ball -> Ball)
    requires ps != []
    requires var s := SweepUpTo(w, ps[..|ps| - 1], height, slow);
      Widened(w.paddle, s.world.paddle) &&
      (forall p :: p in s.kept ==> !Touches(p, w.paddle)) &&
      CountCaught(ps[..|ps| - 1], height, w.paddle) <= |ps| - 1 - |s.kept| - CountFallen(ps[..|ps| - 1], height)
        <= CountCaught(ps[..|ps| - 1], height, s.world.paddle)
    ensures var s := SweepUpTo(w, ps, height, slow);
      Widened(w.paddle, s.world.paddle) &&
      (forall p :: p in s.kept ==> !Touches(p, w.paddle)) &&
      CountCaught(ps, height, w.paddle) <= |ps| - |s.kept| - CountFallen(ps, height) <= CountCaught(ps, height, s.world.paddle)
  {
    var n := |ps| - 1;
    var s := SweepUpTo(w, ps[..n], height, slow);
    var q := Moved(ps[n]);
    assert ps[..|ps| - 1] == ps[..n];
    TouchesWider(q, w.paddle, s.world.paddle);
    if q.y <= height && Touches(q, s.world.paddle) {
      var r := Activate(s.world, q.kind, slow);
      ActivateKeeps(s.world, q.kind, slow);
      CountCaughtWider(ps[..n], height, s.world.paddle, r.paddle);
      TouchesWider(q, s.world.paddle, r.paddle);
    }
  }

  /** How many of the power-ups are of the given kind. */
  function KindCount(qs: seq<Pickup>, kind: Kind): nat
    decreases |qs|
  {
    if qs == [] then 0
    else KindCount(qs[..|qs| - 1], kind) + (if qs[|qs| - 1].kind == kind then 1 else 0)
  }

  function Pow3(n: nat): nat
  {
    if n == 0 then 1 else 3 * Pow3(n - 1)
  }

  /** The paddle once the given power-ups are collected: widened by 30 for
      each wider-paddle among them, in place and height unchanged. */
  function WidenedBy(paddle: Rect, caught: seq<Pickup>): Rect
  {
    paddle.(width := paddle.width + WidenBy * KindCount(caught, WiderPaddle))
  }

  /** Which power-ups a sweep collects, worked out from the power-ups and the
      starting paddle alone: each in turn, once moved, is caught exactly when
      it is still on screen and touches the paddle as widened by the
      wider-paddles caught before it. The caught ones, moved, in order. */
  function Caught(ps: seq<Pickup>, height: int, paddle: Rect): seq<Pickup>
    decreases |ps|
  {
    if ps == [] then []
    else
      var c := Caught(ps[..|ps| - 1], height, paddle);
      var p := Moved(ps[|ps| - 1]);
      if p.y <= height && Touches(p, WidenedBy(paddle, c)) then c + [p] else c
  }

  /** The power-ups such a sweep leaves: moved, still on screen and not
      touching the paddle as it is at their turn, in order. */
  function Missed(ps: seq<Pickup>, height: int, paddle: Rect): seq<Pickup>
    decreases |ps|
  {
    if ps == [] then []
    else
      var p := Moved(ps[|ps| - 1]);
      var m := Missed(ps[..|ps| - 1], height, paddle);
      if p.y <= height && !Touches(p, WidenedBy(paddle, Caught(ps[..|ps| - 1], height, paddle))) then m + [p] else m
  }

  /** Every power-up falls off, is caught or is missed, exactly one of the three. */
  lemma {:induction false} CaughtMissedPartition(ps: seq<Pickup>, height: int, paddle: Rect)
    ensures |Caught(ps, height, paddle)| + |Missed(ps, height, paddle)| + CountFallen(ps, height) == |ps|
    decreases |ps|
  {
    if ps != [] {
      CaughtMissedPartition(ps[..|ps| - 1], height, paddle);
    }
  }

  /** Collecting one power-up: 25 points; one more life for extra life, 30
      more width for wider paddle, three times the balls for multi-ball; all
      else about lives, paddle and ball count unchanged. */
  lemma ActivateCounts(w: World, kind: Kind, slow: Ball -> Ball)
    ensures var r := Activate(w, kind, slow);
      r.score == w.score + PickupBonus &&
      r.lives == w.lives + (if kind == ExtraLife then 1 else 0) &&
      r.paddle == w.paddle.(width := w.paddle.width + (if kind == WiderPaddle then WidenBy else 0)) &&
      |r.balls| == (if kind == MultiBall then 3 * |w.balls| else |w.balls|)
  {
    match kind
    case MultiBall => CopiesLength(w.balls);
    case _ =>
  }

  /** One more multi-ball triples the ball count once more. */
  lemma TripleBalls(b: nat, m: nat)
    ensures 3 * (b * Pow3(m)) == b * Pow3(m + 1)
  {
    assert Pow3(m + 1) == 3 * Pow3(m);
  }

  /** r is w after collecting the power-ups c, as far as score, lives,
      paddle and ball count go. */
  predicate Tracks(w: World, r: World, c: seq<Pickup>)
  {
    r.paddle == WidenedBy(w.paddle, c) &&
    r.score == w.score + PickupBonus * |c| &&
    r.lives == w.lives + KindCount(c, ExtraLife) &&
    |r.balls| == |w.balls| * Pow3(KindCount(c, MultiBall))
  }

  /** The sweep is exactly the reference: it keeps the missed power-ups, and
      its effect on score, lives, paddle and ball count is that of the caught
      ones, counted by kind. */
  lemma {:induction false} SweepExact(w: World, ps: seq<Pickup>, height: int, slow: Ball -> Ball)
    ensures var s := SweepUpTo(w, ps, height, slow);
      s.kept == Missed(ps, height, w.paddle) && Tracks(w, s.world, Caught(ps, height, w.paddle))
    decreases |ps|
  {
    if ps != [] {
      var n := |ps| - 1;
      SweepExact(w, ps[..n], height, slow);
      assert ps[..|ps| - 1] == ps[..n];
      SweepStepExact(w, SweepUpTo(w, ps[..n], height, slow), Caught(ps[..n], height, w.paddle), ps[n], height, slow);
    }
  }

  /** One step of SweepExact: a step that catches q extends the tracked
      caught list by q, and one that does not leaves it. */
  lemma SweepStepExact(w: World, s: Swept, c: seq<Pickup>, p0: Pickup, height: int, slow: Ball -> Ball)
    requires Tracks(w, s.world, c)
    ensures var q := Moved(p0);
      var caught := q.y <= height && Touches(q, WidenedBy(w.paddle, c));
      var t := SweepStep(s, p0, height, slow);
      t.kept == s.kept + (if q.y <= height && !caught then [q] else []) &&
      Tracks(w, t.world, if caught then c + [q] else c)
  {
    var q := Moved(p0);
    if q.y <= height && Touches(q, s.world.paddle) {
      var c' := c + [q];
      assert c'[..|c'| - 1] == c;
      ActivateCounts(s.world, q.kind, slow);
      if q.kind == MultiBall {
        TripleBalls(|w.balls|, KindCount(c, MultiBall));
      }
    }
  }

  /** The power-up phase in one statement: survivors are the moved power-ups
      neither fallen nor collected, in their old order, and none of them
      touches the paddle; a moved power-up on screen that touches the paddle
      is collected (the paddle only widens during the sweep, so the count
      collected lies between those touching the old and the new paddle, and
      is exactly those touching it when its width did not change); score
      rises by 25 per collection. Exactly: the survivors are the missed
      power-ups and the effects are those of the caught ones, counted by kind. */
  lemma PowerUpPhaseSpec(w: World, height: int, slow: Ball -> Ball)
    requires Acts(w)
    ensures var r := PowerUpPhase(w, height, slow);
      IsSubseq(r.pickups, MovedAll(w.pickups)) &&
      (forall p :: p in r.pickups ==> p.y <= height && !Touches(p, w.paddle))
    ensures var r := PowerUpPhase(w, height, slow);
      var collected := |w.pickups| - |r.pickups| - CountFallen(w.pickups, height);
      Widened(w.paddle, r.paddle) &&
      CountCaught(w.pickups, height, w.paddle) <= collected <= CountCaught(w.pickups, height, r.paddle) &&
      (r.paddle.width == w.paddle.width ==> collected == CountCaught(w.pickups, height, w.paddle)) &&
      r.score == w.score + 25 * collected
    ensures var r := PowerUpPhase(w, height, slow);
      r.lives >= w.lives && |r.balls| >= |w.balls| && r.grid == w.grid && !r.over
    ensures var r, c := PowerUpPhase(w, height, slow), Caught(w.pickups, height, w.paddle);
      r.pickups == Missed(w.pickups, height, w.paddle) &&
      r.paddle == WidenedBy(w.paddle, c) &&
      r.score == w.score + PickupBonus * |c| &&
      r.lives == w.lives + KindCount(c, ExtraLife) &&
      |r.balls| == |w.balls| * Pow3(KindCount(c, MultiBall))
  {
    SweepKept(w, w.pickups, height, slow);
    SweepScore(w, w.pickups, height, slow);
    SweepWorld(w, w.pickups, height, slow);
    SweepCollects(w, w.pickups, height, slow);
    SweepExact(w, w.pickups, height, slow);
  }

  /** A wider-paddle caught early in a sweep lets a later power-up beyond the
      old right edge be caught, and one beyond the new edge still is not. */
  lemma WiderMidSweep()
    ensures var paddle, ps := Rect(0, 500, 100, 15),
                              [Pickup(50, 490, WiderPaddle), Pickup(120, 490, SlowBall), Pickup(300, 490, ExtraLife)];
      Caught(ps, 600, paddle) == [Pickup(50, 492, WiderPaddle), Pickup(120, 492, SlowBall)] &&
      Missed(ps, 600, paddle) == [Pickup(300, 492, ExtraLife)]
  {
    var paddle, ps := Rect(0, 500, 100, 15),
                      [Pickup(50, 490, WiderPaddle), Pickup(120, 490, SlowBall), Pickup(300, 490, ExtraLife)];
    var p1, p2 := ps[..1], ps[..2];
    assert p1[..|p1| - 1] == [] && p2[..|p2| - 1] == p1 && ps[..|ps| - 1] == p2;
    assert Caught(p1[..|p1| - 1], 600, paddle) == [];
    var c1 := Caught(p1, 600, paddle);
    assert Touches(Moved(ps[0]), WidenedBy(paddle, []));
    assert c1 == [Pickup(50, 492, WiderPaddle)];
    assert KindCount(c1, WiderPaddle) == 1 by { assert c1[..|c1| - 1] == []; }
    assert Missed(p1, 600, paddle) == [];
    var c2 := Caught(p2, 600, paddle);
    assert c2 == c1 + [Pickup(120, 492, SlowBall)];
    assert KindCount(c2, WiderPaddle) == 1 by { assert c2[..|c2| - 1] == c1; }
    assert Missed(p2, 600, paddle) == [];
  }

  lemma {:induction false} SweepPlayable(w: World, ps: seq<Pickup>, height: int, slow: Ball -> Ball)
    requires Playable(w)
    ensures Playable(SweepUpTo(w, ps, height, slow).world)
    decreases |ps|
  {
    if ps != [] {
      var n := |ps| - 1;
      SweepPlayable(w, ps[..n], height, slow);
      var s := SweepUpTo(w, ps[..n], height, slow);
      ActivatePlayable(s.world, Moved(ps[n]).kind, slow);
    }
  }

  /** Every transition keeps the world playable: while not over there is a
      life and a ball, and the score stays non-negative. */
  lemma TransitionsPlayable(w: World, lost: seq<bool>, intersects: (Ball, Brick) -> bool,
                            draws: seq<Draw>, height: int, slow: Ball -> Ball, pointerX: int, code: int)
    requires |lost| == |w.balls| && |draws| == |w.balls| && ValidDraws(draws)
    requires Playable(w)
    ensures Playable(LoseBalls(w, lost))
    ensures Playable(BrickPhase(w, intersects, draws))
    ensures Playable(PowerUpPhase(w, height, slow))
    ensures Playable(MouseMoved(w, pointerX)) && Playable(KeyPressed(w, code)) && Playable(Victory(w))
  {
    LoseBallsPlayable(w, lost);
    BrickPhasePlayable(w, intersects, draws);
    SweepPlayable(w, w.pickups, height, slow);
    ResetPlayable(w);
  }
}
