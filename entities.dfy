/** Small value types shared by the game model: an Option wrapper, the
    records for the two entities whose classes are not part of this model
    (Brick and Ball), axis-aligned rectangles, and Java's integer halving. */
module Wrappers {
  datatype Option<+T> = None | Some(value: T)
}

module Entities {

  /** Java's `n / 2` on `int` truncates toward zero; Dafny's `/` is Euclidean. */
  function JavaHalf(n: int): (h: int)
    ensures n >= 0 ==> h == n / 2
    ensures n < 0 ==> h == -((-n) / 2)
    ensures -1 <= n - 2 * h <= 1 && (n - 2 * h) * n >= 0
  {
    if n >= 0 then n / 2 else -((-n) / 2)
  }

  /** The colour tag a brick is drawn in; only its row tier matters here. */
  datatype Color = Red | Orange | Yellow | Green | Blue | Magenta | Pink | Cyan

  /** A brick: its rectangle, colour, point value and whether it is still in play.
      A brick is created active and only ever deactivated. */
  datatype Brick = Brick(x: int, y: int, width: int, height: int, color: Color, points: int, active: bool)

  /** A ball as the state rules see it: position, size and velocity.
      Java keeps these as `float`; the model uses exact reals. */
  datatype Ball = Ball(x: real, y: real, size: real, vx: real, vy: real)

  /** The ball every new life (and every reset) starts with. */
  const StartBall := Ball(400.0, 400.0, 10.0, 3.0, -3.0)

  /** The vertical bounce a ball makes when it destroys a brick. */
  function ReverseY(b: Ball): (r: Ball)
    ensures r.vy == -b.vy && r.(vy := b.vy) == b
  {
    b.(vy := -b.vy)
  }

  /** An integer rectangle, as the paddle is. */
  datatype Rect = Rect(x: int, y: int, width: int, height: int)

  /** Two closed rectangles share at least one point. */
  predicate Overlap(a: Rect, b: Rect)
  {
    a.x <= b.x + b.width && b.x <= a.x + a.width &&
    a.y <= b.y + b.height && b.y <= a.y + a.height
  }

  /** The point (px, py) lies in the closed rectangle r. */
  predicate Contains(r: Rect, px: int, py: int)
  {
    r.x <= px <= r.x + r.width && r.y <= py <= r.y + r.height
  }

  function BrickRect(b: Brick): Rect
  {
    Rect(b.x, b.y, b.width, b.height)
  }
}
