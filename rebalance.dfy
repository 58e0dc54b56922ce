/**
 * Bringing the number of gears on a full grid to the configured
 * percentage by turning plain pieces into gears or gears into plain pieces.
 */
module Rebalance {
  import opened Pieces
  import opened Board

  /** The number of gears in a row. */
  function CountRow(r: seq<Cell>): (k: nat)
    ensures k <= |r|
  {
    if r == [] then 0 else CountRow(r[..|r| - 1]) + (if IsGearCell(r[|r| - 1]) then 1 else 0)
  }

  /** The number of gears on the grid, row by row. */
  function CountGears(b: Board): nat {
    if b == [] then 0 else CountGears(b[..|b| - 1]) + CountRow(b[|b| - 1])
  }

  /** `Math.floor(n * n * percentage / 100)`: the number of gears the percentage asks for. */
  function TargetGears(n: int, percentage: int): int {
    n * n * percentage / 100
  }

  /** A percentage in 0..100 asks for between none and all of the n * n cells. */
  lemma {:induction false} TargetInRange(n: nat, percentage: int)
    requires 0 <= percentage <= 100
    ensures 0 <= TargetGears(n, percentage) <= n * n
  {
    var t := n * n;
    assert 0 <= t * percentage <= t * 100;
  }

  lemma {:induction false} CountRowSnoc(r: seq<Cell>, x: int)
    requires 0 <= x < |r|
    ensures CountRow(r[..x + 1]) == CountRow(r[..x]) + (if IsGearCell(r[x]) then 1 else 0)
  {
    assert r[..x + 1][..x] == r[..x];
  }

  lemma {:induction false} CountGearsSnoc(b: Board, y: int)
    requires 0 <= y < |b|
    ensures CountGears(b[..y + 1]) == CountGears(b[..y]) + CountRow(b[y])
  {
    assert b[..y + 1][..y] == b[..y];
  }

  /** Changing one cell of a row changes its count by the change in that cell's gear status. */
  lemma {:induction false} CountRowUpdate(r: seq<Cell>, x: int, c: Cell)
    requires 0 <= x < |r|
    ensures CountRow(r[x := c]) + (if IsGearCell(r[x]) then 1 else 0)
         == CountRow(r) + (if IsGearCell(c) then 1 else 0)
  {
    var last := |r| - 1;
    if x < last {
      assert r[x := c][..last] == r[..last][x := c];
      CountRowUpdate(r[..last], x, c);
    } else {
      assert r[x := c][..last] == r[..last];
    }
  }

  /** Changing one cell of the grid changes the count by the change in that cell's gear status. */
  lemma {:induction false} CountGearsUpdate(b: Board, x: int, y: int, c: Cell)
    requires 0 <= y < |b| && 0 <= x < |b[y]|
    ensures CountGears(Put(b, x, y, c)) + (if IsGearCell(b[y][x]) then 1 else 0)
         == CountGears(b) + (if IsGearCell(c) then 1 else 0)
  {
    var last := |b| - 1;
    CountRowUpdate(b[y], x, c);
    if y < last {
      assert Put(b, x, y, c)[..last] == Put(b[..last], x, y, c);
      CountGearsUpdate(b[..last], x, y, c);
    } else {
      assert Put(b, x, y, c)[..last] == b[..last];
    }
  }

  /** Rows whose cells agree on being gears hold as many gears. */
  lemma {:induction false} CountRowSame(r: seq<Cell>, s: seq<Cell>)
    requires |r| == |s| && forall x :: 0 <= x < |r| ==> IsGearCell(r[x]) == IsGearCell(s[x])
    ensures CountRow(r) == CountRow(s)
  {
    if r != [] {
      CountRowSame(r[..|r| - 1], s[..|s| - 1]);
    }
  }

  /** Grids of one shape whose cells agree on being gears hold as many gears. */
  lemma {:induction false} CountGearsSame(a: Board, b: Board)
    requires |a| == |b| && forall y :: 0 <= y < |a| ==> |a[y]| == |b[y]|
    requires forall y, x :: 0 <= y < |a| && 0 <= x < |a[y]| ==> IsGearCell(a[y][x]) == IsGearCell(b[y][x])
    ensures CountGears(a) == CountGears(b)
  {
    if a != [] {
      var last := |a| - 1;
      CountRowSame(a[last], b[last]);
      CountGearsSame(a[..last], b[..last]);
    }
  }

  /** A row not made only of gears has a cell that is not a gear. */
  lemma {:induction false} RowHasPlain(r: seq<Cell>)
    requires CountRow(r) < |r|
    ensures exists x :: 0 <= x < |r| && !IsGearCell(r[x])
  {
    var last := |r| - 1;
    if IsGearCell(r[last]) {
      RowHasPlain(r[..last]);
      var x :| 0 <= x < last && !IsGearCell(r[..last][x]);
      assert !IsGearCell(r[x]);
    }
  }

  /** A row with a gear has a cell that is a gear. */
  lemma {:induction false} RowHasGear(r: seq<Cell>)
    requires CountRow(r) > 0
    ensures exists x :: 0 <= x < |r| && IsGearCell(r[x])
  {
    var last := |r| - 1;
    if !IsGearCell(r[last]) {
      RowHasGear(r[..last]);
      var x :| 0 <= x < last && IsGearCell(r[..last][x]);
      assert IsGearCell(r[x]);
    }
  }

  /**
   * On an n by n grid holding fewer than n * n gears some cell is not a
   * gear, and on one holding a gear some cell is a gear: the rebalancing
   * loops always have a cell to change.
   */
  lemma {:induction false} SomeCellToChange(b: Board, n: nat)
    requires IsGrid(b, n)
    ensures CountGears(b) < n * n ==> exists x, y :: 0 <= x < n && 0 <= y < n && !IsGearCell(b[y][x])
    ensures CountGears(b) > 0 ==> exists x, y :: 0 <= x < n && 0 <= y < n && IsGearCell(b[y][x])
  {
    PlainRowExists(b, n);
    GearRowExists(b);
  }

  lemma {:induction false} PlainRowExists(b: Board, n: nat)
    requires forall y :: 0 <= y < |b| ==> |b[y]| == n
    ensures CountGears(b) < |b| * n ==> exists x, y :: 0 <= x < n && 0 <= y < |b| && !IsGearCell(b[y][x])
  {
    if b != [] && CountGears(b) < |b| * n {
      var last := |b| - 1;
      assert |b| * n == last * n + n;
      if CountRow(b[last]) < n {
        RowHasPlain(b[last]);
        var x :| 0 <= x < n && !IsGearCell(b[last][x]);
        assert !IsGearCell(b[last][x]);
      } else {
        PlainRowExists(b[..last], n);
        var x, y :| 0 <= x < n && 0 <= y < last && !IsGearCell(b[..last][y][x]);
        assert !IsGearCell(b[y][x]);
      }
    }
  }

  lemma {:induction false} GearRowExists(b: Board)
    ensures CountGears(b) > 0 ==> exists x, y :: 0 <= y < |b| && 0 <= x < |b[y]| && IsGearCell(b[y][x])
  {
    if b != [] && CountGears(b) > 0 {
      var last := |b| - 1;
      if CountRow(b[last]) > 0 {
        RowHasGear(b[last]);
        var x :| 0 <= x < |b[last]| && IsGearCell(b[last][x]);
        assert IsGearCell(b[last][x]);
      } else {
        GearRowExists(b[..last]);
        var x, y :| 0 <= y < last && 0 <= x < |b[..last][y]| && IsGearCell(b[..last][y][x]);
        assert IsGearCell(b[y][x]);
      }
    }
  }

  /** A plain piece turned into a gear: nothing else about it changes. */
  function MadeGear(p: Piece): Piece {
    p.(isGear := true)
  }

  /** A gear turned into a plain piece, stopped: nothing else about it changes. */
  function MadePlain(p: Piece): Piece {
    p.(isGear := false, rotating := false, spinning := false)
  }

  /**
   * b comes from a by turning some plain pieces into gears (when `up`) or
   * some gears into stopped plain pieces (when not), and nothing else.
   */
  predicate Adjusted(a: Board, b: Board, up: bool) {
    && |b| == |a|
    && (forall y :: 0 <= y < |a| ==> |b[y]| == |a[y]|)
    && forall y, x :: 0 <= y < |a| && 0 <= x < |a[y]| ==>
      || b[y][x] == a[y][x]
      || (up && a[y][x].Some? && !a[y][x].value.isGear && b[y][x] == Some(MadeGear(a[y][x].value)))
      || (!up && a[y][x].Some? && a[y][x].value.isGear && b[y][x] == Some(MadePlain(a[y][x].value)))
  }

  /** Turning one more plain piece into a gear keeps b an upward adjustment of a. */
  lemma {:induction false} AdjustedUp(a: Board, b: Board, x: int, y: int)
    requires Adjusted(a, b, true) && 0 <= y < |b| && 0 <= x < |b[y]| && b[y][x].Some? && !b[y][x].value.isGear
    ensures Adjusted(a, Put(b, x, y, Some(MadeGear(b[y][x].value))), true)
  {
    var r := Put(b, x, y, Some(MadeGear(b[y][x].value)));
    assert b[y][x] == a[y][x];
    forall yy, xx | 0 <= yy < |a| && 0 <= xx < |a[yy]|
      ensures || r[yy][xx] == a[yy][xx]
              || (a[yy][xx].Some? && !a[yy][xx].value.isGear && r[yy][xx] == Some(MadeGear(a[yy][xx].value)))
    {
      if yy != y || xx != x {
        assert r[yy][xx] == b[yy][xx];
      }
    }
  }

  /** Turning one more gear into a stopped plain piece keeps b a downward adjustment of a. */
  lemma {:induction false} AdjustedDown(a: Board, b: Board, x: int, y: int)
    requires Adjusted(a, b, false) && 0 <= y < |b| && 0 <= x < |b[y]| && b[y][x].Some? && b[y][x].value.isGear
    ensures Adjusted(a, Put(b, x, y, Some(MadePlain(b[y][x].value))), false)
  {
    var r := Put(b, x, y, Some(MadePlain(b[y][x].value)));
    assert b[y][x] == a[y][x];
    forall yy, xx | 0 <= yy < |a| && 0 <= xx < |a[yy]|
      ensures || r[yy][xx] == a[yy][xx]
              || (a[yy][xx].Some? && a[yy][xx].value.isGear && r[yy][xx] == Some(MadePlain(a[yy][xx].value)))
    {
      if yy != y || xx != x {
        assert r[yy][xx] == b[yy][xx];
      }
    }
  }

  /** Every grid is an adjustment of itself, either way. */
  lemma AdjustedSame(a: Board, up: bool)
    ensures Adjusted(a, a, up)
  {
  }
}
