/**
 * The grid as a value: rows of cells, `b[y][x]` being the cell in row y and
 * column x, exactly as the engine indexes `grid[y][x]`.
 */
module Board {
  import opened Pieces

  type Board = seq<seq<Cell>>

  /** Every row is as long as the grid is high. */
  predicate Square(b: Board) {
    forall y :: 0 <= y < |b| ==> |b[y]| == |b|
  }

  /** An n by n grid. */
  predicate IsGrid(b: Board, n: int) {
    |b| == n && Square(b)
  }

  /** No cell is empty. */
  predicate Full(b: Board) {
    forall y, x :: 0 <= y < |b| && 0 <= x < |b[y]| ==> b[y][x].Some?
  }

  predicate InBounds(b: Board, p: Pos) {
    0 <= p.y < |b| && 0 <= p.x < |b[p.y]|
  }

  /** The colours of row y, left to right. */
  function Row(b: Board, y: int): seq<string>
    requires Square(b) && Full(b) && 0 <= y < |b|
  {
    seq(|b[y]|, x requires 0 <= x < |b[y]| => b[y][x].value.color)
  }

  /** The colours of column x, top to bottom. */
  function Col(b: Board, x: int): seq<string>
    requires Square(b) && Full(b) && 0 <= x < |b|
  {
    seq(|b|, y requires 0 <= y < |b| => b[y][x].value.color)
  }

  /** The cells of column x, top to bottom. */
  function Column(b: Board, x: int): seq<Cell>
    requires Square(b) && 0 <= x < |b|
  {
    seq(|b|, y requires 0 <= y < |b| => b[y][x])
  }

  /** The grid with column x replaced by c. */
  function SetColumn(b: Board, x: int, c: seq<Cell>): (r: Board)
    requires Square(b) && 0 <= x < |b| && |c| == |b|
    ensures IsGrid(r, |b|)
  {
    seq(|b|, y requires 0 <= y < |b| => b[y][x := c[y]])
  }

  /** The grid with the cell at (x, y) replaced by c. */
  function Put(b: Board, x: int, y: int, c: Cell): (r: Board)
    requires 0 <= y < |b| && 0 <= x < |b[y]|
    ensures |r| == |b| && forall k :: 0 <= k < |b| ==> |r[k]| == |b[k]|
  {
    b[y := b[y][x := c]]
  }

  /** Two grids of the same shape with the same cells are the same grid. */
  lemma {:induction false} BoardEq(a: Board, b: Board)
    requires |a| == |b| && forall y :: 0 <= y < |a| ==> |a[y]| == |b[y]|
    requires forall y, x :: 0 <= y < |a| && 0 <= x < |a[y]| ==> a[y][x] == b[y][x]
    ensures a == b
  {
    forall y | 0 <= y < |a|
      ensures a[y] == b[y]
    {
      assert forall x :: 0 <= x < |a[y]| ==> a[y][x] == b[y][x];
    }
  }

  /** Writing a column and reading it back gives what was written; the other columns stay. */
  lemma {:induction false} SetColumnSound(b: Board, x: int, c: seq<Cell>)
    requires Square(b) && 0 <= x < |b| && |c| == |b|
    ensures Column(SetColumn(b, x, c), x) == c
    ensures forall y, k :: 0 <= y < |b| && 0 <= k < |b| && k != x ==> SetColumn(b, x, c)[y][k] == b[y][k]
  {
  }

  /** Writing column x leaves every other column as it was. */
  lemma {:induction false} SetColumnOther(b: Board, x: int, c: seq<Cell>, k: int)
    requires Square(b) && 0 <= x < |b| && |c| == |b| && 0 <= k < |b| && k != x
    ensures Column(SetColumn(b, x, c), k) == Column(b, k)
  {
  }

  /** Writing one cell of column x writes that entry of the column and no other column. */
  lemma {:induction false} PutColumn(b: Board, x: int, y: int, v: Cell)
    requires Square(b) && 0 <= x < |b| && 0 <= y < |b|
    ensures Square(Put(b, x, y, v))
    ensures Column(Put(b, x, y, v), x) == Column(b, x)[y := v]
    ensures forall k :: 0 <= k < |b| && k != x ==> Column(Put(b, x, y, v), k) == Column(b, k)
  {
  }

  /** Writing one cell of a written column is writing the updated column. */
  lemma {:induction false} PutSetColumn(b: Board, x: int, c: seq<Cell>, y: int, v: Cell)
    requires Square(b) && 0 <= x < |b| && |c| == |b| && 0 <= y < |b|
    ensures Put(SetColumn(b, x, c), x, y, v) == SetColumn(b, x, c[y := v])
  {
    BoardEq(Put(SetColumn(b, x, c), x, y, v), SetColumn(b, x, c[y := v]));
  }

  /** Writing the first cell after a prefix of a concatenation. */
  lemma {:induction false} UpdateAfter<T>(front: seq<T>, rest: seq<T>, v: T)
    requires |rest| > 0
    ensures (front + rest)[|front| := v] == front + [v] + rest[1..]
    ensures front + rest == front + [rest[0]] + rest[1..]
  {
    assert rest == [rest[0]] + rest[1..];
  }

  /** Writing a column twice keeps the second write; writing back a column changes nothing. */
  lemma {:induction false} SetColumnTwice(b: Board, x: int, c1: seq<Cell>, c2: seq<Cell>)
    requires Square(b) && 0 <= x < |b| && |c1| == |b| && |c2| == |b|
    ensures SetColumn(SetColumn(b, x, c1), x, c2) == SetColumn(b, x, c2)
    ensures SetColumn(b, x, Column(b, x)) == b
  {
    var r1 := SetColumn(SetColumn(b, x, c1), x, c2);
    BoardEq(r1, SetColumn(b, x, c2));
    BoardEq(SetColumn(b, x, Column(b, x)), b);
  }

  // ---------------------------------------------------------------------
  // Gears on the grid
  // ---------------------------------------------------------------------

  predicate IsGearCell(c: Cell) {
    c.Some? && c.value.isGear
  }

  /** The positions of all gears. */
  function GearsOf(b: Board): set<Pos> {
    set y, x | 0 <= y < |b| && 0 <= x < |b[y]| && IsGearCell(b[y][x]) :: Pos(x, y)
  }

  /** A position holds a gear exactly when it is on the grid and its cell is a gear. */
  lemma {:induction false} GearsOfMember(b: Board, p: Pos)
    ensures p in GearsOf(b) <==> InBounds(b, p) && IsGearCell(b[p.y][p.x])
  {
    if InBounds(b, p) && IsGearCell(b[p.y][p.x]) {
      assert Pos(p.x, p.y) in GearsOf(b);
    }
  }

  /** Two grids of one shape whose cells agree on being gears have the same gears. */
  lemma {:induction false} SameGears(a: Board, b: Board)
    requires |a| == |b| && forall y :: 0 <= y < |a| ==> |a[y]| == |b[y]|
    requires forall y, x :: 0 <= y < |a| && 0 <= x < |a[y]| ==> IsGearCell(a[y][x]) == IsGearCell(b[y][x])
    ensures GearsOf(a) == GearsOf(b)
  {
    forall p | p in GearsOf(a)
      ensures p in GearsOf(b)
    {
      GearsOfMember(a, p);
      GearsOfMember(b, p);
    }
    forall p | p in GearsOf(b)
      ensures p in GearsOf(a)
    {
      GearsOfMember(a, p);
      GearsOfMember(b, p);
    }
  }

  /** Overwriting a cell with one of the same gear status keeps the gear positions. */
  lemma {:induction false} GearsOfPut(b: Board, x: int, y: int, c: Cell)
    requires 0 <= y < |b| && 0 <= x < |b[y]| && IsGearCell(c) == IsGearCell(b[y][x])
    ensures GearsOf(Put(b, x, y, c)) == GearsOf(b)
  {
    SameGears(Put(b, x, y, c), b);
  }
}
