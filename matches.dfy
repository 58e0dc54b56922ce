/**
 * Match detection: a horizontal pass over the rows and a vertical pass over
 * the columns, sharing one visited mask, reporting each cell of a run of at
 * least `matchLength` equal colours once.
 */
module Matches {
  import opened Pieces
  import opened Lines
  import opened Board

  /** The cell (x, y) lies in a horizontal or a vertical run of at least m equal colours. */
  predicate Matched(b: Board, m: int, x: int, y: int)
    requires Square(b) && Full(b) && 0 <= x < |b| && 0 <= y < |b|
  {
    InLongRun(Row(b, y), x, m) || InLongRun(Col(b, x), y, m)
  }

  /** Some cell of the grid is matched. */
  predicate HasMatch(b: Board, m: int)
    requires Square(b) && Full(b)
  {
    exists x, y :: 0 <= x < |b| && 0 <= y < |b| && Matched(b, m, x, y)
  }

  /** The positions a list of match entries names, in order. */
  function Cells(ms: seq<Match>): seq<Pos> {
    seq(|ms|, i requires 0 <= i < |ms| => Pos(ms[i].x, ms[i].y))
  }

  /** Every entry names a cell of the grid and carries the piece standing there. */
  predicate Recorded(b: Board, ms: seq<Match>) {
    forall i :: 0 <= i < |ms| ==> InBounds(b, Pos(ms[i].x, ms[i].y)) && b[ms[i].y][ms[i].x] == Some(ms[i].piece)
  }

  /** The visited mask is set exactly at the reported cells. */
  predicate Mirrors(visited: array2<bool>, ms: seq<Match>)
    reads visited
  {
    forall yy, c :: 0 <= yy < visited.Length0 && 0 <= c < visited.Length1 ==>
      (visited[yy, c] <==> Pos(c, yy) in Cells(ms))
  }

  /** The bookkeeping both passes keep: entries are grid cells, each reported once, mirrored by the mask. */
  predicate Bookkept(b: Board, visited: array2<bool>, ms: seq<Match>)
    reads visited
  {
    Recorded(b, ms) && Distinct(Cells(ms)) && Mirrors(visited, ms)
  }

  /** The length counted rightwards from (x, y): the tail of the run of x from x onwards. */
  method RowRunLength(b: Board, y: int, x: int) returns (len: int)
    requires Square(b) && Full(b) && 0 <= y < |b| && 0 <= x < |b|
    ensures len == RunEnd(Row(b, y), x) - x
  {
    var color := b[y][x].value.color;
    len := 1;
    var i := 1;
    while i < |b| - x
      invariant 1 <= i <= |b| - x && len == i
      invariant forall k :: x <= k < x + i ==> b[y][k].value.color == color
    {
      if b[y][x + i].value.color == color {
        len := len + 1;
        i := i + 1;
      } else {
        break;
      }
    }
    RunEndIs(Row(b, y), x, x + len);
  }

  /** The length counted downwards from (x, y): the tail of the run of y from y onwards. */
  method ColRunLength(b: Board, x: int, y: int) returns (len: int)
    requires Square(b) && Full(b) && 0 <= y < |b| && 0 <= x < |b|
    ensures len == RunEnd(Col(b, x), y) - y
  {
    var color := b[y][x].value.color;
    len := 1;
    var i := 1;
    while i < |b| - y
      invariant 1 <= i <= |b| - y && len == i
      invariant forall k :: y <= k < y + i ==> b[k][x].value.color == color
    {
      if b[y + i][x].value.color == color {
        len := len + 1;
        i := i + 1;
      } else {
        break;
      }
    }
    RunEndIs(Col(b, x), y, y + len);
  }

  /** Appending one entry appends its position. */
  lemma {:induction false} CellsSnoc(ms: seq<Match>, e: Match)
    ensures Cells(ms + [e]) == Cells(ms) + [Pos(e.x, e.y)]
  {
    assert |Cells(ms + [e])| == |ms| + 1;
  }

  /** Reports the unvisited cells of row y in [x, x + len) and marks them. */
  method MarkRow(b: Board, visited: array2<bool>, y: int, x: int, len: int, ms0: seq<Match>) returns (ms: seq<Match>)
    modifies visited
    requires Square(b) && Full(b) && visited.Length0 == |b| && visited.Length1 == |b|
    requires 0 <= y < |b| && 0 <= x && 0 <= len && x + len <= |b|
    requires Bookkept(b, visited, ms0)
    ensures Bookkept(b, visited, ms)
    ensures forall yy, c :: 0 <= yy < |b| && 0 <= c < |b| ==>
      visited[yy, c] == (old(visited[yy, c]) || (yy == y && x <= c < x + len))
  {
    ms := ms0;
    for i := 0 to len
      invariant Bookkept(b, visited, ms)
      invariant forall yy, c :: 0 <= yy < |b| && 0 <= c < |b| ==>
        visited[yy, c] == (old(visited[yy, c]) || (yy == y && x <= c < x + i))
    {
      if !visited[y, x + i] {
        var e := Match(x + i, y, b[y][x + i].value);
        CellsSnoc(ms, e);
        ms := ms + [e];
        visited[y, x + i] := true;
      }
    }
  }

  /** Reports the unvisited cells of column x in [y, y + len) and marks them. */
  method MarkColumn(b: Board, visited: array2<bool>, x: int, y: int, len: int, ms0: seq<Match>) returns (ms: seq<Match>)
    modifies visited
    requires Square(b) && Full(b) && visited.Length0 == |b| && visited.Length1 == |b|
    requires 0 <= x < |b| && 0 <= y && 0 <= len && y + len <= |b|
    requires Bookkept(b, visited, ms0)
    ensures Bookkept(b, visited, ms)
    ensures forall yy, c :: 0 <= yy < |b| && 0 <= c < |b| ==>
      visited[yy, c] == (old(visited[yy, c]) || (c == x && y <= yy < y + len))
  {
    ms := ms0;
    for i := 0 to len
      invariant Bookkept(b, visited, ms)
      invariant forall yy, c :: 0 <= yy < |b| && 0 <= c < |b| ==>
        visited[yy, c] == (old(visited[yy, c]) || (c == x && y <= yy < y + i))
    {
      if !visited[y + i, x] {
        var e := Match(x, y + i, b[y + i][x].value);
        CellsSnoc(ms, e);
        ms := ms + [e];
        visited[y + i, x] := true;
      }
    }
  }

  /** The horizontal pass over row y: afterwards the long-run cells of the row are marked. */
  method ScanRow(b: Board, m: int, visited: array2<bool>, y: int, ms0: seq<Match>) returns (ms: seq<Match>)
    modifies visited
    requires Square(b) && Full(b) && m >= 1 && visited.Length0 == |b| && visited.Length1 == |b|
    requires 0 <= y < |b| && Bookkept(b, visited, ms0)
    ensures Bookkept(b, visited, ms)
    ensures forall yy, c :: 0 <= yy < |b| && 0 <= c < |b| ==>
      visited[yy, c] == (old(visited[yy, c]) || (yy == y && InLongRun(Row(b, y), c, m)))
  {
    var n := |b|;
    var s := Row(b, y);
    ms := ms0;
    var x := 0;
    while x < n - (m - 1)
      invariant 0 <= x && (x <= n - (m - 1) || x == 0)
      invariant Bookkept(b, visited, ms)
      invariant forall yy, c :: 0 <= yy < n && 0 <= c < n ==>
        visited[yy, c] == (old(visited[yy, c]) || (yy == y && InLongRun(s, c, m) && RunStart(s, c) < x))
    {
      var len := RowRunLength(b, y, x);
      if len >= m {
        ms := MarkRow(b, visited, y, x, len, ms);
      }
      forall c | 0 <= c < n
        ensures (InLongRun(s, c, m) && RunStart(s, c) < x + 1)
          <==> (InLongRun(s, c, m) && RunStart(s, c) < x) || (x <= c < x + len && len >= m)
      {
        MarkStep(s, m, x, c);
      }
      x := x + 1;
    }
    forall c | 0 <= c < n && InLongRun(s, c, m)
      ensures RunStart(s, c) < x
    {
      RunStartBound(s, c, m);
    }
  }

  /** The vertical pass over column x: afterwards the long-run cells of the column are marked too. */
  method ScanColumn(b: Board, m: int, visited: array2<bool>, x: int, ms0: seq<Match>) returns (ms: seq<Match>)
    modifies visited
    requires Square(b) && Full(b) && m >= 1 && visited.Length0 == |b| && visited.Length1 == |b|
    requires 0 <= x < |b| && Bookkept(b, visited, ms0)
    ensures Bookkept(b, visited, ms)
    ensures forall yy, c :: 0 <= yy < |b| && 0 <= c < |b| ==>
      visited[yy, c] == (old(visited[yy, c]) || (c == x && InLongRun(Col(b, x), yy, m)))
  {
    var n := |b|;
    var s := Col(b, x);
    ms := ms0;
    var y := 0;
    while y < n - (m - 1)
      invariant 0 <= y && (y <= n - (m - 1) || y == 0)
      invariant Bookkept(b, visited, ms)
      invariant forall yy, c :: 0 <= yy < n && 0 <= c < n ==>
        visited[yy, c] == (old(visited[yy, c]) || (c == x && InLongRun(s, yy, m) && RunStart(s, yy) < y))
    {
      var len := ColRunLength(b, x, y);
      if len >= m {
        ms := MarkColumn(b, visited, x, y, len, ms);
      }
      forall yy | 0 <= yy < n
        ensures (InLongRun(s, yy, m) && RunStart(s, yy) < y + 1)
          <==> (InLongRun(s, yy, m) && RunStart(s, yy) < y) || (y <= yy < y + len && len >= m)
      {
        MarkStep(s, m, y, yy);
      }
      y := y + 1;
    }
    forall yy | 0 <= yy < n && InLongRun(s, yy, m)
      ensures RunStart(s, yy) < y
    {
      RunStartBound(s, yy, m);
    }
  }

  /**
   * The match scan. Every entry is a grid cell with the piece on it, no cell
   * is reported twice, and a cell is reported exactly when it is matched.
   */
  method FindMatches(b: Board, m: int) returns (ms: seq<Match>)
    requires Square(b) && Full(b) && m >= 1
    ensures Recorded(b, ms)
    ensures Distinct(Cells(ms))
    ensures forall x, y :: 0 <= x < |b| && 0 <= y < |b| ==> (Pos(x, y) in Cells(ms) <==> Matched(b, m, x, y))
    ensures |ms| > 0 <==> HasMatch(b, m)
  {
    var n := |b|;
    var visited := new bool[n, n]((_, _) => false);
    ms := [];
    for y := 0 to n
      invariant Bookkept(b, visited, ms)
      invariant forall yy, c :: 0 <= yy < n && 0 <= c < n ==>
        (visited[yy, c] <==> yy < y && InLongRun(Row(b, yy), c, m))
    {
      ms := ScanRow(b, m, visited, y, ms);
    }
    for x := 0 to n
      invariant Bookkept(b, visited, ms)
      invariant forall yy, c :: 0 <= yy < n && 0 <= c < n ==>
        (visited[yy, c] <==> InLongRun(Row(b, yy), c, m) || (c < x && InLongRun(Col(b, c), yy, m)))
    {
      ms := ScanColumn(b, m, visited, x, ms);
    }
    if |ms| > 0 {
      assert Cells(ms)[0] == Pos(ms[0].x, ms[0].y);
      assert Matched(b, m, ms[0].x, ms[0].y);
    }
  }
}
