/** Falling power-ups: a position, a fixed 20-by-20 size, a constant fall
    speed of 2 per tick, and one of four kinds fixed at creation. */
module PowerUps {
  import opened Entities
  import Paddles

  /** The four kinds, in the order the random draw indexes them. */
  datatype Kind = MultiBall | ExtraLife | WiderPaddle | SlowBall

  const Kinds: seq<Kind> := [MultiBall, ExtraLife, WiderPaddle, SlowBall]

  const Size := 20
  const FallSpeed := 2

  /** A power-up as a value. Its coordinates are integers: it is created at
      a brick centre and only ever falls by whole steps. */
  datatype Pickup = Pickup(x: int, y: int, kind: Kind)

  /** The kind a uniform draw from [0, 4) selects. */
  function KindAt(draw: int): Kind
    requires 0 <= draw < |Kinds|
  {
    Kinds[draw]
  }

  /** There are exactly four kinds and the draw reaches each of them once. */
  lemma KindsAreFour()
    ensures |Kinds| == 4
    ensures forall k: Kind :: k in Kinds
    ensures forall d, e :: 0 <= d < e < |Kinds| ==> KindAt(d) != KindAt(e)
  {
    forall k: Kind ensures k in Kinds {
      match k
      case MultiBall => assert Kinds[0] == k;
      case ExtraLife => assert Kinds[1] == k;
      case WiderPaddle => assert Kinds[2] == k;
      case SlowBall => assert Kinds[3] == k;
    }
  }

  /** One tick of falling. */
  function Moved(p: Pickup): Pickup
  {
    p.(y := p.y + FallSpeed)
  }

  /** The paddle test: the centre is within the paddle's horizontal span and
      the power-up's vertical extent meets the paddle's. */
  predicate Touches(p: Pickup, paddle: Rect)
  {
    p.x >= paddle.x && p.x <= paddle.x + paddle.width &&
    p.y + Size / 2 >= paddle.y && p.y - Size / 2 <= paddle.y + paddle.height
  }

  /** An independent reading of the paddle test: the vertical segment through
      the centre, as tall as the power-up, overlaps the paddle's rectangle;
      equivalently the centre lies in the paddle grown by 10 above and below. */
  lemma TouchesIsSegmentOverlap(p: Pickup, paddle: Rect)
    ensures Touches(p, paddle) <==> Overlap(Rect(p.x, p.y - 10, 0, 20), paddle)
    ensures Touches(p, paddle) <==>
      Contains(Rect(paddle.x, paddle.y - 10, paddle.width, paddle.height + 20), p.x, p.y)
  {
  }

  /** n ticks of falling. */
  function Fall(p: Pickup, n: nat): Pickup
  {
    if n == 0 then p else Moved(Fall(p, n - 1))
  }

  /** Falling moves a power-up straight down by 2 per tick; its column and
      kind never change. */
  lemma {:induction false} FallDistance(p: Pickup, n: nat)
    ensures Fall(p, n) == Pickup(p.x, p.y + 2 * n, p.kind)
  {
    if n > 0 {
      FallDistance(p, n - 1);
    }
  }

  /** A power-up whose top is already below a paddle never touches it again. */
  lemma PassedStaysPassed(p: Pickup, paddle: Rect, n: nat)
    requires p.y - Size / 2 > paddle.y + paddle.height
    ensures !Touches(Fall(p, n), paddle)
  {
    FallDistance(p, n);
  }

  class PowerUp {
    var x: int
    var y: int
    const kind: Kind

    function View(): Pickup
      reads this
    {
      Pickup(x, y, kind)
    }

    constructor (x: int, y: int, kind: Kind)
      ensures View() == Pickup(x, y, kind)
    {
      this.x := x;
      this.y := y;
      this.kind := kind;
    }

    /** Falls one tick. */
    method Move()
      modifies this
      ensures View() == Moved(old(View()))
    {
      y := y + FallSpeed;
    }

    /** Whether this power-up touches the paddle, i.e. whether its centre lies
        in the paddle's rectangle grown by 10 above and below; reads both,
        changes neither. */
    function Intersects(paddle: Paddles.Paddle): (r: bool)
      reads this, paddle
      ensures r <==> Contains(Rect(paddle.x, paddle.y - 10, paddle.width, paddle.height + 20), x, y)
    {
      TouchesIsSegmentOverlap(View(), paddle.View());
      Touches(View(), paddle.View())
    }

    function GetX(): int reads this { x }
    function GetY(): int reads this { y }
    function GetType(): Kind { kind }
  }
}
