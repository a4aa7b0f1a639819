/** The brick field: a fixed rows-by-cols grid of bricks, the collision scan
    that destroys the first active brick a ball touches, and the emptiness test
    that decides victory.

    The grid is specified as a value (`Grid`, a sequence of rows) with pure
    functions and lemmas; the class `BrickField` keeps the bricks in a
    two-dimensional array and its methods are proved against those functions. */
module BrickFields {
  import opened Wrappers
  import opened Entities

  type Grid = seq<seq<Brick>>

  const BrickWidth := 75
  const BrickHeight := 20
  const TopOffset := 50
  const SideOffset := 50

  /** Point value of a row, by row index modulo the eight-entry table. */
  function RowPoints(i: nat): int
  {
    [7, 7, 5, 5, 3, 3, 1, 1][i % 8]
  }

  function RowColor(i: nat): Color
  {
    [Red, Orange, Yellow, Green, Blue, Magenta, Pink, Cyan][i % 8]
  }

  /** The brick the constructor places at row i, column j. */
  function InitialBrick(i: nat, j: nat): Brick
  {
    Brick(j * (BrickWidth + 10) + SideOffset, i * (BrickHeight + 5) + TopOffset,
          BrickWidth, BrickHeight, RowColor(i), RowPoints(i), true)
  }

  function InitialGrid(rows: nat, cols: nat): (g: Grid)
  {
    seq(rows, i requires 0 <= i < rows => seq(cols, j requires 0 <= j < cols => InitialBrick(i, j)))
  }

  /* ---------- positions and the row-major scan ---------- */

  datatype Pos = Pos(i: nat, j: nat)

  predicate InGrid(g: Grid, i: int, j: int)
  {
    0 <= i < |g| && 0 <= j < |g[i]|
  }

  /** (i', j') comes before (i, j) in row-major order. */
  predicate Before(i': int, j': int, i: int, j: int)
  {
    i' < i || (i' == i && j' < j)
  }

  /** A brick the ball destroys: it is active and the ball touches it. */
  predicate Hittable(b: Brick, hit: Brick -> bool)
  {
    b.active && hit(b)
  }

  /** No brick of the grid can be hit. */
  predicate NoHit(g: Grid, hit: Brick -> bool)
  {
    forall i, j :: 0 <= i < |g| && 0 <= j < |g[i]| ==> !Hittable(g[i][j], hit)
  }

  /** (i, j) is a hittable brick and every brick before it in row-major order is not. */
  predicate IsFirstHit(g: Grid, hit: Brick -> bool, i: int, j: int)
  {
    InGrid(g, i, j) && Hittable(g[i][j], hit) &&
    forall i', j' :: 0 <= i' < |g| && 0 <= j' < |g[i']| && Before(i', j', i, j) ==> !Hittable(g[i'][j'], hit)
  }

  /** Column of the first hittable brick of a row at or after column j. */
  function FirstInRow(row: seq<Brick>, hit: Brick -> bool, j: nat): Option<nat>
    requires j <= |row|
    decreases |row| - j
  {
    if j == |row| then None
    else if Hittable(row[j], hit) then Some(j)
    else FirstInRow(row, hit, j + 1)
  }

  /** Position of the first hittable brick at or after row i, scanning row-major. */
  function FirstFrom(g: Grid, hit: Brick -> bool, i: nat): Option<Pos>
    requires i <= |g|
    decreases |g| - i
  {
    if i == |g| then None
    else match FirstInRow(g[i], hit, 0)
      case Some(j) => Some(Pos(i, j))
      case None => FirstFrom(g, hit, i + 1)
  }

  function FirstHit(g: Grid, hit: Brick -> bool): Option<Pos>
  {
    FirstFrom(g, hit, 0)
  }

  /** The grid with the brick at (i, j) switched off. */
  function Deactivate(g: Grid, i: nat, j: nat): Grid
    requires InGrid(g, i, j)
  {
    g[i := g[i][j := g[i][j].(active := false)]]
  }

  /** Outcome of one collision query: the brick destroyed, if any, and the new grid. */
  datatype Collision = Collision(hit: Option<Brick>, grid: Grid)

  /** One `checkCollision`: destroy the first hittable brick and return it
      (already inactive), or return nothing and leave the grid alone. */
  function Collide(g: Grid, hit: Brick -> bool): Collision
  {
    match FirstHit(g, hit)
    case None => Collision(None, g)
    case Some(p) =>
      if InGrid(g, p.i, p.j) then
        Collision(Some(g[p.i][p.j].(active := false)), Deactivate(g, p.i, p.j))
      else Collision(None, g)
  }

  /** Every brick is inactive: the victory condition. */
  predicate AllInactive(g: Grid)
  {
    forall i, j :: 0 <= i < |g| && 0 <= j < |g[i]| ==> !g[i][j].active
  }

  /* ---------- counting active bricks and their points ---------- */

  function Sum<T>(s: seq<T>, f: T -> int): int
  {
    if s == [] then 0 else Sum(s[..|s| - 1], f) + f(s[|s| - 1])
  }

  function ActiveOne(b: Brick): int
  {
    if b.active then 1 else 0
  }

  function ActiveValue(b: Brick): int
  {
    if b.active then b.points else 0
  }

  function ActiveCount(g: Grid): int
  {
    Sum(g, row => Sum(row, ActiveOne))
  }

  /** Total points still on the field. */
  function ActivePoints(g: Grid): int
  {
    Sum(g, row => Sum(row, ActiveValue))
  }

  /* ---------- lemmas: the scan finds exactly the first hit ---------- */

  lemma {:induction false} FirstInRowSpec(row: seq<Brick>, hit: Brick -> bool, j: nat)
    requires j <= |row|
    ensures FirstInRow(row, hit, j).None? <==> forall k :: j <= k < |row| ==> !Hittable(row[k], hit)
    ensures FirstInRow(row, hit, j).Some? ==>
      var k := FirstInRow(row, hit, j).value;
      j <= k < |row| && Hittable(row[k], hit) && forall m :: j <= m < k ==> !Hittable(row[m], hit)
    decreases |row| - j
  {
    if j < |row| && !Hittable(row[j], hit) {
      FirstInRowSpec(row, hit, j + 1);
    }
  }

  lemma {:induction false} FirstFromSpec(g: Grid, hit: Brick -> bool, i: nat)
    requires i <= |g|
    ensures FirstFrom(g, hit, i).None? <==>
      forall i', j' :: i <= i' && InGrid(g, i', j') ==> !Hittable(g[i'][j'], hit)
    ensures FirstFrom(g, hit, i).Some? ==>
      var p := FirstFrom(g, hit, i).value;
      i <= p.i && InGrid(g, p.i, p.j) && Hittable(g[p.i][p.j], hit) &&
      forall i', j' :: i <= i' && InGrid(g, i', j') && Before(i', j', p.i, p.j) ==> !Hittable(g[i'][j'], hit)
    decreases |g| - i
  {
    if i < |g| {
      FirstInRowSpec(g[i], hit, 0);
      FirstFromSpec(g, hit, i + 1);
    }
  }

  /** The scan reports nothing exactly when no brick can be hit, and otherwise
      reports the first hittable brick in row-major order. */
  lemma FirstHitSpec(g: Grid, hit: Brick -> bool)
    ensures FirstHit(g, hit).None? <==> NoHit(g, hit)
    ensures FirstHit(g, hit).Some? ==> IsFirstHit(g, hit, FirstHit(g, hit).value.i, FirstHit(g, hit).value.j)
  {
    FirstFromSpec(g, hit, 0);
  }

  /** The first hit is unique: any position that is the first hit is what the scan finds. */
  lemma FirstHitUnique(g: Grid, hit: Brick -> bool, i: nat, j: nat)
    requires IsFirstHit(g, hit, i, j)
    ensures FirstHit(g, hit) == Some(Pos(i, j))
  {
    FirstHitSpec(g, hit);
  }

  /* ---------- lemmas: what one collision changes ---------- */

  /** A miss leaves the grid unchanged, and happens exactly when nothing can be hit. */
  lemma CollideMiss(g: Grid, hit: Brick -> bool)
    ensures Collide(g, hit).hit.None? <==> NoHit(g, hit)
    ensures Collide(g, hit).hit.None? ==> Collide(g, hit).grid == g
  {
    FirstHitSpec(g, hit);
  }

  /** A hit returns the first hittable brick, now inactive; exactly that brick
      goes from active to inactive and every other brick is unchanged. */
  lemma CollideHit(g: Grid, hit: Brick -> bool)
    requires Collide(g, hit).hit.Some?
    ensures var c := Collide(g, hit); var p := FirstHit(g, hit).value;
      IsFirstHit(g, hit, p.i, p.j) &&
      c.hit.value == g[p.i][p.j].(active := false) &&
      |c.grid| == |g| &&
      (forall i :: 0 <= i < |g| ==> |c.grid[i]| == |g[i]|) &&
      g[p.i][p.j].active && !c.grid[p.i][p.j].active &&
      c.grid[p.i][p.j] == c.hit.value &&
      forall i, j :: InGrid(g, i, j) && (i, j) != (p.i, p.j) ==> c.grid[i][j] == g[i][j]
  {
    FirstHitSpec(g, hit);
  }

  /** A collision never turns an inactive brick back on. */
  lemma CollideNeverActivates(g: Grid, hit: Brick -> bool)
    ensures var g' := Collide(g, hit).grid;
      |g'| == |g| && (forall i :: 0 <= i < |g| ==> |g'[i]| == |g[i]|) &&
      forall i, j :: InGrid(g, i, j) ==> g'[i][j].points == g[i][j].points && (g'[i][j].active ==> g[i][j].active)
  {
    if Collide(g, hit).hit.Some? {
      CollideHit(g, hit);
    }
  }

  /** Once the field is empty, every collision misses and the field stays empty. */
  lemma EmptyStaysEmpty(g: Grid, hit: Brick -> bool)
    requires AllInactive(g)
    ensures Collide(g, hit) == Collision(None, g)
    ensures AllInactive(Collide(g, hit).grid)
  {
    FirstHitSpec(g, hit);
  }

  /* ---------- lemmas: counting ---------- */

  lemma {:induction false} SumUpdate<T>(s: seq<T>, f: T -> int, k: nat, x: T)
    requires k < |s|
    ensures Sum(s[k := x], f) == Sum(s, f) - f(s[k]) + f(x)
    decreases |s|
  {
    var n := |s| - 1;
    if k < n {
      assert s[k := x][..n] == s[..n][k := x];
      SumUpdate(s[..n], f, k, x);
    } else {
      assert s[k := x][..n] == s[..n];
    }
  }

  lemma {:induction false} SumConst<T>(s: seq<T>, f: T -> int, c: int)
    requires forall k :: 0 <= k < |s| ==> f(s[k]) == c
    ensures Sum(s, f) == |s| * c
    decreases |s|
  {
    if s != [] {
      SumConst(s[..|s| - 1], f, c);
    }
  }

  lemma {:induction false} SumNonNegative<T>(s: seq<T>, f: T -> int)
    requires forall k :: 0 <= k < |s| ==> f(s[k]) >= 0
    ensures Sum(s, f) >= 0
    decreases |s|
  {
    if s != [] {
      SumNonNegative(s[..|s| - 1], f);
    }
  }

  lemma {:induction false} SumZero<T>(s: seq<T>, f: T -> int)
    requires forall k :: 0 <= k < |s| ==> f(s[k]) >= 0
    ensures Sum(s, f) == 0 <==> forall k :: 0 <= k < |s| ==> f(s[k]) == 0
    decreases |s|
  {
    if s != [] {
      var n := |s| - 1;
      SumZero(s[..n], f);
      SumNonNegative(s[..n], f);
      if forall k :: 0 <= k < |s| ==> f(s[k]) == 0 {
        forall k | 0 <= k < n ensures f(s[..n][k]) == 0 {
          assert s[..n][k] == s[k];
        }
      }
      if Sum(s, f) == 0 {
        forall k | 0 <= k < |s| ensures f(s[k]) == 0 {
          if k < n { assert s[..n][k] == s[k]; }
        }
      }
    }
  }

  /** Deactivating an active brick lowers the active count by one and the
      points left on the field by that brick's value. */
  lemma DeactivateCounts(g: Grid, i: nat, j: nat)
    requires InGrid(g, i, j) && g[i][j].active
    ensures ActiveCount(Deactivate(g, i, j)) == ActiveCount(g) - 1
    ensures ActivePoints(Deactivate(g, i, j)) == ActivePoints(g) - g[i][j].points
  {
    var b := g[i][j].(active := false);
    var row := g[i][j := b];
    SumUpdate(g[i], ActiveOne, j, b);
    SumUpdate(g, row => Sum(row, ActiveOne), i, row);
    SumUpdate(g[i], ActiveValue, j, b);
    SumUpdate(g, row => Sum(row, ActiveValue), i, row);
  }

  /** Per collision, the active count drops by exactly one on a hit and by zero
      on a miss, and the points left on the field drop by the destroyed brick's value. */
  lemma CollideCounts(g: Grid, hit: Brick -> bool)
    ensures var c := Collide(g, hit);
      ActiveCount(c.grid) == ActiveCount(g) - (if c.hit.Some? then 1 else 0) &&
      ActivePoints(c.grid) == ActivePoints(g) - (if c.hit.Some? then c.hit.value.points else 0)
  {
    FirstHitSpec(g, hit);
    match FirstHit(g, hit)
    case None =>
    case Some(p) => DeactivateCounts(g, p.i, p.j);
  }

  /** The field is empty exactly when no brick is counted active. */
  lemma AllInactiveIffNoneCounted(g: Grid)
    ensures AllInactive(g) <==> ActiveCount(g) == 0
  {
    forall k | 0 <= k < |g| ensures Sum(g[k], ActiveOne) >= 0 {
      SumNonNegative(g[k], ActiveOne);
    }
    SumZero(g, row => Sum(row, ActiveOne));
    forall k | 0 <= k < |g|
      ensures Sum(g[k], ActiveOne) == 0 <==> forall j :: 0 <= j < |g[k]| ==> !g[k][j].active
    {
      SumZero(g[k], ActiveOne);
    }
  }

  /* ---------- lemmas: the initial layout ---------- */

  /** The constructor's layout: points by row tier, position from the indices,
      fixed size, all active. */
  lemma InitialGridLayout(rows: nat, cols: nat, i: nat, j: nat)
    requires i < rows && j < cols
    ensures var b := InitialGrid(rows, cols)[i][j];
      InGrid(InitialGrid(rows, cols), i, j) &&
      b.points == [7, 7, 5, 5, 3, 3, 1, 1][i % 8] &&
      b.x == j * 85 + 50 && b.y == i * 25 + 50 &&
      b.width == 75 && b.height == 20 && b.active
    ensures InitialGrid(rows, cols)[i][j].points in {1, 3, 5, 7}
  {
  }

  /** A fresh field has every brick active: rows * cols of them. */
  lemma InitialGridFull(rows: nat, cols: nat)
    ensures |InitialGrid(rows, cols)| == rows
    ensures forall i :: 0 <= i < rows ==> |InitialGrid(rows, cols)[i]| == cols
    ensures ActiveCount(InitialGrid(rows, cols)) == rows * cols
    ensures rows * cols > 0 ==> !AllInactive(InitialGrid(rows, cols))
  {
    var g := InitialGrid(rows, cols);
    forall k | 0 <= k < rows ensures Sum(g[k], ActiveOne) == cols {
      SumConst(g[k], ActiveOne, 1);
    }
    SumConst(g, row => Sum(row, ActiveOne), cols);
    if rows * cols > 0 {
      assert g[0][0].active;
    }
  }

  /** No two bricks of a fresh field overlap: there is a 10-pixel gap between
      columns and a 5-pixel gap between rows. */
  lemma InitialBricksDisjoint(i: nat, j: nat, i': nat, j': nat)
    requires (i, j) != (i', j')
    ensures !Overlap(BrickRect(InitialBrick(i, j)), BrickRect(InitialBrick(i', j')))
  {
    if j < j' {
      assert j * 85 + 85 <= j' * 85;
    } else if j' < j {
      assert j' * 85 + 85 <= j * 85;
    } else if i < i' {
      assert i * 25 + 25 <= i' * 25;
    } else {
      assert i' * 25 + 25 <= i * 25;
    }
  }

  /* ---------- the field object ---------- */

  /** The field as the game holds it: the grid dimensions and a two-dimensional
      array of bricks whose `active` flags the collision scan switches off in place. */
  class BrickField {
    const rows: nat
    const cols: nat
    const bricks: array2<Brick>

    ghost predicate Valid()
    {
      bricks.Length0 == rows && bricks.Length1 == cols
    }

    /** The bricks as a grid value, row by row. */
    ghost function Cells(): (g: Grid)
      reads bricks
      ensures |g| == bricks.Length0
      ensures forall i :: 0 <= i < |g| ==> |g[i]| == bricks.Length1
      ensures forall i, j :: 0 <= i < bricks.Length0 && 0 <= j < bricks.Length1 ==> g[i][j] == bricks[i, j]
    {
      seq(bricks.Length0, i requires 0 <= i < bricks.Length0 reads bricks =>
        seq(bricks.Length1, j requires 0 <= j < bricks.Length1 reads bricks => bricks[i, j]))
    }

    /** Builds the grid row by row: brick (i, j) gets its row's colour and
        points, sits at (j * 85 + 50, i * 25 + 50) and is 75 by 20. */
    constructor (rows: nat, cols: nat)
      ensures Valid() && fresh(bricks)
      ensures this.rows == rows && this.cols == cols
      ensures Cells() == InitialGrid(rows, cols)
    {
      var a := new Brick[rows, cols];
      var i := 0;
      while i < rows
        invariant 0 <= i <= rows
        invariant forall i', j' :: 0 <= i' < i && 0 <= j' < cols ==> a[i', j'] == InitialBrick(i', j')
      {
        var j := 0;
        while j < cols
          invariant 0 <= j <= cols
          invariant forall i', j' :: 0 <= i' < i && 0 <= j' < cols ==> a[i', j'] == InitialBrick(i', j')
          invariant forall j' :: 0 <= j' < j ==> a[i, j'] == InitialBrick(i, j')
        {
          var x := j * (BrickWidth + 10) + SideOffset;
          var y := i * (BrickHeight + 5) + TopOffset;
          a[i, j] := Brick(x, y, BrickWidth, BrickHeight, RowColor(i), RowPoints(i), true);
          j := j + 1;
        }
        i := i + 1;
      }
      this.rows := rows;
      this.cols := cols;
      bricks := a;
      new;
      ghost var init := InitialGrid(rows, cols);
      forall k | 0 <= k < rows ensures Cells()[k] == init[k] {
        assert forall m :: 0 <= m < cols ==> Cells()[k][m] == init[k][m];
      }
      assert Cells() == init;
    }

    /** Scans row by row for the first active brick the ball touches (`hit`),
        switches it off and returns it; returns nothing if there is none. */
    method CheckCollision(hit: Brick -> bool) returns (r: Option<Brick>)
      requires Valid()
      modifies bricks
      ensures Collision(r, Cells()) == Collide(old(Cells()), hit)
    {
      ghost var g := Cells();
      var i := 0;
      while i < rows
        invariant 0 <= i <= rows
        invariant unchanged(bricks)
        invariant forall i', j' :: 0 <= i' < i && 0 <= j' < cols ==> !Hittable(bricks[i', j'], hit)
      {
        var j := 0;
        while j < cols
          invariant 0 <= j <= cols
          invariant unchanged(bricks)
          invariant forall i', j' :: 0 <= i' < i && 0 <= j' < cols ==> !Hittable(bricks[i', j'], hit)
          invariant forall j' :: 0 <= j' < j ==> !Hittable(bricks[i, j'], hit)
        {
          if bricks[i, j].active && hit(bricks[i, j]) {
            assert IsFirstHit(g, hit, i, j);
            FirstHitUnique(g, hit, i, j);
            bricks[i, j] := bricks[i, j].(active := false);
            ghost var d := Deactivate(g, i, j);
            forall k | 0 <= k < rows ensures Cells()[k] == d[k] {
              assert forall m :: 0 <= m < cols ==> Cells()[k][m] == d[k][m];
            }
            assert Cells() == d;
            return Some(bricks[i, j]);
          }
          j := j + 1;
        }
        i := i + 1;
      }
      FirstHitSpec(g, hit);
      return None;
    }

    /** True exactly when no brick is active any more. */
    method IsEmpty() returns (e: bool)
      requires Valid()
      ensures e == AllInactive(Cells())
    {
      var i := 0;
      while i < rows
        invariant 0 <= i <= rows
        invariant forall i', j' :: 0 <= i' < i && 0 <= j' < cols ==> !bricks[i', j'].active
      {
        var j := 0;
        while j < cols
          invariant 0 <= j <= cols
          invariant forall i', j' :: 0 <= i' < i && 0 <= j' < cols ==> !bricks[i', j'].active
          invariant forall j' :: 0 <= j' < j ==> !bricks[i, j'].active
        {
          if bricks[i, j].active {
            return false;
          }
          j := j + 1;
        }
        i := i + 1;
      }
      return true;
    }
  }
}
