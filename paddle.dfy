/** The player's paddle: an integer rectangle that follows the pointer
    horizontally and that the wider-paddle power-up widens. */
module Paddles {
  import opened Entities

  /** The left edge `moveTo` gives a paddle of the given width so that it is
      centred on the pointer, with Java's truncating halving. */
  function CentredX(pointerX: int, width: int): int
  {
    pointerX - JavaHalf(width)
  }

  /** The pointer ends up on the paddle, at its centre for an even width and
      half a pixel left of it for an odd width. */
  lemma CentredOnPointer(pointerX: int, width: int)
    requires width >= 0
    ensures var x := CentredX(pointerX, width);
      x + width / 2 == pointerX &&
      x <= pointerX <= x + width &&
      (pointerX - x) <= (x + width - pointerX) <= (pointerX - x) + 1
  {
  }

  /** No clamping: for any bound, some pointer positions put the paddle's
      left edge beyond it on either side. */
  lemma CentringIsUnclamped(width: int, bound: int)
    ensures CentredX(bound + JavaHalf(width) + 1, width) > bound
    ensures CentredX(-bound + JavaHalf(width) - 1, width) < -bound
  {
  }

  class Paddle {
    var x: int
    var y: int
    var width: int
    var height: int

    /** The paddle as a rectangle value. */
    function View(): Rect
      reads this
    {
      Rect(x, y, width, height)
    }

    constructor (x: int, y: int, width: int, height: int)
      ensures View() == Rect(x, y, width, height)
    {
      this.x := x;
      this.y := y;
      this.width := width;
      this.height := height;
    }

    /** Recentres the paddle on the pointer; only the left edge moves and it
        is not kept on screen. */
    method MoveTo(pointerX: int)
      modifies this
      ensures x == CentredX(pointerX, old(width))
      ensures y == old(y) && width == old(width) && height == old(height)
    {
      x := pointerX - JavaHalf(width);
    }

    /** Sets the width; position and height are kept. */
    method SetWidth(width: int)
      modifies this
      ensures this.width == width
      ensures x == old(x) && y == old(y) && height == old(height)
    {
      this.width := width;
    }

    function GetX(): int reads this { x }
    function GetY(): int reads this { y }
    function GetWidth(): int reads this { width }
    function GetHeight(): int reads this { height }
  }
}
