/**
 * A drag move: one row or one column of the grid rotated cyclically.
 */
module Moves {
  import opened Pieces
  import opened Lines
  import opened Board

  /** The two kinds of drag, `'row'` and `'column'`. */
  datatype Axis = AlongRow | AlongColumn

  /** The grid after rotating row or column `index` by `amount` cells. */
  function Moved(b: Board, axis: Axis, index: int, amount: int): (r: Board)
    requires Square(b) && 0 <= index < |b|
    ensures IsGrid(r, |b|)
  {
    match axis
    case AlongRow => b[index := Shift(b[index], amount)]
    case AlongColumn => SetColumn(b, index, Shift(Column(b, index), amount))
  }

  /**
   * A row move sends the piece at column x of the row to column
   * (x + amount) mod n and leaves the other rows alone; a column move sends
   * the piece at row y of the column to row (y + amount) mod n and leaves the
   * other columns alone.
   */
  lemma {:induction false} MovedDestinations(b: Board, axis: Axis, index: int, amount: int, i: int)
    requires Square(b) && 0 <= index < |b| && 0 <= i < |b|
    ensures axis == AlongRow ==>
      && Moved(b, axis, index, amount)[index][(i + amount) % |b|] == b[index][i]
      && forall y :: 0 <= y < |b| && y != index ==> Moved(b, axis, index, amount)[y] == b[y]
    ensures axis == AlongColumn ==>
      && Moved(b, axis, index, amount)[(i + amount) % |b|][index] == b[i][index]
      && forall y, x :: 0 <= y < |b| && 0 <= x < |b| && x != index ==> Moved(b, axis, index, amount)[y][x] == b[y][x]
  {
    match axis
    case AlongRow =>
      ShiftMoves(b[index], amount, i);
    case AlongColumn =>
      ShiftMoves(Column(b, index), amount, i);
  }

  /** A move keeps every piece of the moved line, each exactly as often. */
  lemma {:induction false} MovedPermutes(b: Board, axis: Axis, index: int, amount: int)
    requires Square(b) && 0 <= index < |b|
    ensures axis == AlongRow ==> multiset(Moved(b, axis, index, amount)[index]) == multiset(b[index])
    ensures axis == AlongColumn ==>
      multiset(Column(Moved(b, axis, index, amount), index)) == multiset(Column(b, index))
  {
    match axis
    case AlongRow =>
      ShiftPermutes(b[index], amount);
    case AlongColumn =>
      SetColumnSound(b, index, Shift(Column(b, index), amount));
      ShiftPermutes(Column(b, index), amount);
  }

  /** Dragging the same line back by the same amount restores the grid. */
  lemma {:induction false} MovedInverse(b: Board, axis: Axis, index: int, amount: int)
    requires Square(b) && 0 <= index < |b|
    ensures Moved(Moved(b, axis, index, amount), axis, index, -amount) == b
  {
    match axis
    case AlongRow =>
      ShiftInverse(b[index], amount);
      assert b[index := b[index]] == b;
    case AlongColumn =>
      var c := Column(b, index);
      var b1 := SetColumn(b, index, Shift(c, amount));
      SetColumnSound(b, index, Shift(c, amount));
      ShiftInverse(c, amount);
      SetColumnTwice(b, index, Shift(c, amount), c);
  }

  /** Moving by the clamped drag delta is moving by the raw delta. */
  lemma {:induction false} MovedByClampedDelta(b: Board, axis: Axis, index: int, cells: int)
    requires Square(b) && 0 <= index < |b|
    ensures Moved(b, axis, index, ClampDelta(cells, |b|)) == Moved(b, axis, index, cells)
  {
    match axis
    case AlongRow =>
      ClampedShiftIsShift(b[index], cells);
    case AlongColumn =>
      ClampedShiftIsShift(Column(b, index), cells);
  }
}
