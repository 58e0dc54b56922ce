/**
 * The refill of the grid after a clear: per column, left to right, gravity
 * pulls the pieces down, then each empty cell left at the top gets a new
 * piece, top to bottom. New pieces come from a factory `make` indexed by the
 * number of the first random draw they use; each piece uses two draws.
 */
module Refill {
  import opened Pieces
  import opened Lines
  import opened Board

  /** The piece the factory makes from the random draws numbered d and d + 1. */
  function Fresh(cfg: Config, rand: nat -> Unit, d: nat): (p: Piece)
    requires |cfg.colors| > 0
    ensures IsNewPiece(p, cfg.colors)
  {
    CreatePiece(cfg.colors, cfg.gearPercentage, rand(d), rand(d + 1))
  }

  /** The factory of the game: the piece of draws d and d + 1. */
  function PieceSource(cfg: Config, rand: nat -> Unit): (make: nat -> Piece)
    requires |cfg.colors| > 0
    ensures forall d :: make(d) == Fresh(cfg, rand, d)
  {
    (d: nat) => Fresh(cfg, rand, d)
  }

  /** An n by n grid of new pieces made row by row, cell (x, y) from draw d + 2 * (y * n + x). */
  function RandomGrid(n: nat, make: nat -> Piece, d: nat): (r: Board)
    ensures IsGrid(r, n) && Full(r)
  {
    seq(n, y requires 0 <= y < n => seq(n, x requires 0 <= x < n => Some(make(d + 2 * (y * n + x)))))
  }

  /** Row y of a grid of new pieces is the row drawn from draw d + 2 * (y * n) on. */
  lemma {:induction false} RandomRow(n: nat, make: nat -> Piece, d: nat, y: int, row: seq<Cell>)
    requires 0 <= y < n && |row| == n
    requires forall x :: 0 <= x < n ==> row[x] == Some(make(d + 2 * (y * n) + 2 * x))
    ensures row == RandomGrid(n, make, d)[y]
  {
    var r := RandomGrid(n, make, d)[y];
    forall x | 0 <= x < n
      ensures row[x] == r[x]
    {
      assert d + 2 * (y * n + x) == d + 2 * (y * n) + 2 * x;
    }
  }

  /** The number of draws one grid of new pieces uses. */
  function BoardDraws(n: nat): nat {
    2 * n * n
  }

  /** The first draw of the k-th grid a new game draws, each grid taking BoardDraws(n) draws from d on. */
  function TrialStart(n: nat, d: nat, k: nat): nat {
    if k == 0 then d else TrialStart(n, d, k - 1) + BoardDraws(n)
  }

  /** The k-th grid starts k whole grids of draws after d. */
  lemma {:induction false} TrialStartIs(n: nat, d: nat, k: nat)
    ensures TrialStart(n, d, k) == d + k * BoardDraws(n)
  {
    if k > 0 {
      TrialStartIs(n, d, k - 1);
      assert k * BoardDraws(n) == (k - 1) * BoardDraws(n) + BoardDraws(n);
    }
  }

  /** The k-th grid a new game draws. */
  function Trial(n: nat, make: nat -> Piece, d: nat, k: nat): (r: Board)
    ensures IsGrid(r, n) && Full(r)
  {
    RandomGrid(n, make, TrialStart(n, d, k))
  }

  /** Drawing one more grid after the (a + 1)-th start gives the next trial. */
  lemma TrialStep(n: nat, make: nat -> Piece, d: nat, a: nat, g: Board, e: nat)
    requires e == TrialStart(n, d, a + 1) && g == RandomGrid(n, make, e)
    ensures g == Trial(n, make, d, a + 1) && e + BoardDraws(n) == TrialStart(n, d, a + 2)
  {
  }

  /** Cell (x, y) of a grid of new pieces is the piece of draw d + 2 * (y * n + x). */
  lemma RandomCell(n: nat, make: nat -> Piece, d: nat, x: int, y: int)
    requires 0 <= x < n && 0 <= y < n
    ensures RandomGrid(n, make, d)[y][x] == Some(make(d + 2 * (y * n + x)))
  {
  }

  /**
   * A column with its empty cells filled top to bottom, each taking the
   * piece of the next two draws, starting at draw d.
   */
  function FilledColumn(c: seq<Cell>, make: nat -> Piece, d: nat): (r: seq<Cell>)
    ensures |r| == |c|
  {
    if c == [] then []
    else if c[0] == None then [Some(make(d))] + FilledColumn(c[1..], make, d + 2)
    else [c[0]] + FilledColumn(c[1..], make, d)
  }

  /** The holes of a column counted from its top cell. */
  lemma {:induction false} HolesCons(a: seq<Cell>)
    requires a != []
    ensures Holes(a) == (if a[0] == None then 1 else 0) + Holes(a[1..])
  {
    assert a == [a[0]] + a[1..];
    SurvivorsAppend([a[0]], a[1..]);
    assert [a[0]][..0] == [];
  }

  /** Filling a column from its top cell. */
  lemma FilledCons(c: seq<Cell>, make: nat -> Piece, d: nat)
    requires c != []
    ensures FilledColumn(c, make, d)
         == [if c[0] == None then Some(make(d)) else c[0]] + FilledColumn(c[1..], make, if c[0] == None then d + 2 else d)
  {
  }

  /** Filling a column front to back: the back half starts at the draw the front half leaves. */
  lemma {:induction false} FilledAppend(a: seq<Cell>, b: seq<Cell>, make: nat -> Piece, d: nat)
    ensures FilledColumn(a + b, make, d) == FilledColumn(a, make, d) + FilledColumn(b, make, d + 2 * Holes(a))
  {
    if a == [] {
      assert a + b == b;
    } else {
      FilledAppend(a[1..], b, make, if a[0] == None then d + 2 else d);
      FilledAppendCons(a, b, make, d);
    }
  }

  /** The step of FilledAppend: from the front half without its top cell to the whole front half. */
  lemma {:induction false} FilledAppendCons(a: seq<Cell>, b: seq<Cell>, make: nat -> Piece, d: nat)
    requires a != []
    requires var d' := if a[0] == None then d + 2 else d;
      FilledColumn(a[1..] + b, make, d') == FilledColumn(a[1..], make, d') + FilledColumn(b, make, d' + 2 * Holes(a[1..]))
    ensures FilledColumn(a + b, make, d) == FilledColumn(a, make, d) + FilledColumn(b, make, d + 2 * Holes(a))
  {
    var rest := a[1..];
    var e := d + 2 * Holes(a);
    assert (a + b)[0] == a[0] && (a + b)[1..] == rest + b;
    HolesCons(a);
    FilledCons(a + b, make, d);
    FilledCons(a, make, d);
    if a[0] == None {
      AppendCons(Some(make(d)), FilledColumn(rest, make, d + 2), FilledColumn(b, make, e));
    } else {
      AppendCons(a[0], FilledColumn(rest, make, d), FilledColumn(b, make, e));
    }
  }

  lemma AppendCons<T>(h: T, x: seq<T>, y: seq<T>)
    ensures [h] + (x + y) == ([h] + x) + y
  {
  }

  /** Filling one more cell: a hole takes the draw after those of the holes before it. */
  lemma {:induction false} FilledSnoc(c: seq<Cell>, y: int, make: nat -> Piece, d: nat)
    requires 0 <= y < |c|
    ensures FilledColumn(c[..y + 1], make, d) ==
      FilledColumn(c[..y], make, d) + [if c[y] == None then Some(make(d + 2 * Holes(c[..y]))) else c[y]]
    ensures Holes(c[..y + 1]) == Holes(c[..y]) + (if c[y] == None then 1 else 0)
  {
    assert c[..y + 1] == c[..y] + [c[y]] && c[..y + 1][..y] == c[..y];
    FilledAppend(c[..y], [c[y]], make, d);
    assert [c[y]][1..] == [];
  }

  /** Column c with its first k cells filled and the rest as they were. */
  function FilledPrefix(c: seq<Cell>, make: nat -> Piece, d: nat, k: int): (r: seq<Cell>)
    requires 0 <= k <= |c|
    ensures |r| == |c|
  {
    FilledColumn(c[..k], make, d) + c[k..]
  }

  /**
   * One step of the top-down fill of column x of b, on the grid g reached
   * so far: cell k is still as it was; a hole there gets the piece of draw
   * e = d + 2 * (holes above it), and a piece stays.
   */
  lemma {:induction false} FillStep(b: Board, x: int, c: seq<Cell>, make: nat -> Piece, d: nat, k: int, g: Board, e: nat)
    requires Square(b) && 0 <= x < |b| && |c| == |b| && 0 <= k < |c|
    requires g == SetColumn(b, x, FilledPrefix(c, make, d, k)) && e == d + 2 * Holes(c[..k])
    ensures g[k][x] == c[k]
    ensures (if c[k] == None then Put(g, x, k, Some(make(e))) else g) == SetColumn(b, x, FilledPrefix(c, make, d, k + 1))
    ensures Holes(c[..k + 1]) == Holes(c[..k]) + (if c[k] == None then 1 else 0)
  {
    var front := FilledColumn(c[..k], make, d);
    FilledSnoc(c, k, make, d);
    UpdateAfter(front, c[k..], Some(make(e)));
    assert c[k..][1..] == c[k + 1..];
    PutSetColumn(b, x, FilledPrefix(c, make, d, k), k, Some(make(e)));
  }

  /** Before the fill the column is as it was; after it, it is filled. */
  lemma {:induction false} FilledPrefixEnds(c: seq<Cell>, make: nat -> Piece, d: nat)
    ensures FilledPrefix(c, make, d, 0) == c
    ensures FilledPrefix(c, make, d, |c|) == FilledColumn(c, make, d)
  {
    assert c[..0] == [] && c[0..] == c;
    assert c[..|c|] == c && c[|c|..] == [];
  }

  /** A column with no holes is left as it is. */
  lemma {:induction false} FilledFull(c: seq<Cell>, make: nat -> Piece, d: nat)
    requires forall y :: 0 <= y < |c| ==> c[y].Some?
    ensures FilledColumn(c, make, d) == c
  {
    if c != [] {
      FilledFull(c[1..], make, d);
    }
  }

  /** Filling k holes above more cells: the holes get the pieces of draws d, d + 2, .... */
  lemma {:induction false} FilledHoles(k: nat, s: seq<Cell>, make: nat -> Piece, d: nat)
    ensures forall y :: 0 <= y < k ==> FilledColumn(Empties(k) + s, make, d)[y] == Some(make(d + 2 * y))
  {
    if k > 0 {
      var c, e := Empties(k) + s, Empties(k - 1) + s;
      assert c[0] == None && c[1..] == e;
      var r, r' := FilledColumn(c, make, d), FilledColumn(e, make, d + 2);
      FilledHoles(k - 1, s, make, d + 2);
      forall y | 1 <= y < k
        ensures r[y] == Some(make(d + 2 * y))
      {
        assert r[y] == r'[y - 1];
        assert d + 2 + 2 * (y - 1) == d + 2 * y;
      }
    }
  }

  /** Filling k holes above pieces leaves the pieces where they are. */
  lemma {:induction false} FilledBelowHoles(k: nat, s: seq<Cell>, make: nat -> Piece, d: nat)
    requires forall y :: 0 <= y < |s| ==> s[y].Some?
    ensures FilledColumn(Empties(k) + s, make, d)[k..] == s
  {
    if k == 0 {
      assert Empties(0) + s == s;
      FilledFull(s, make, d);
    } else {
      var c, e := Empties(k) + s, Empties(k - 1) + s;
      assert c[0] == None && c[1..] == e;
      FilledBelowHoles(k - 1, s, make, d + 2);
      assert FilledColumn(c, make, d)[k..] == FilledColumn(e, make, d + 2)[k - 1..];
    }
  }

  /**
   * Settling then filling a column: the first `Holes(c)` cells are new
   * pieces from consecutive pairs of draws, and below them the pieces of
   * the column keep their order.
   */
  lemma {:induction false} RefilledColumn(c: seq<Cell>, make: nat -> Piece, d: nat)
    ensures forall y :: 0 <= y < Holes(c) ==> FilledColumn(Settled(c), make, d)[y] == Some(make(d + 2 * y))
    ensures forall y :: Holes(c) <= y < |c| ==> FilledColumn(Settled(c), make, d)[y] == Survivors(c)[y - Holes(c)]
  {
    FilledHoles(Holes(c), Survivors(c), make, d);
    FilledBelowHoles(Holes(c), Survivors(c), make, d);
    var r := FilledColumn(Settled(c), make, d);
    forall y | Holes(c) <= y < |c|
      ensures r[y] == Survivors(c)[y - Holes(c)]
    {
      assert r[y] == r[Holes(c)..][y - Holes(c)];
    }
  }

  /** The number of holes in the columns left of x: twice this many draws precede column x. */
  function HolesBefore(b: Board, x: int): (h: nat)
    requires Square(b) && 0 <= x <= |b|
  {
    if x == 0 then 0 else HolesBefore(b, x - 1) + Holes(Column(b, x - 1))
  }

  /** Column x after the refill: settled, then filled from the draws that follow the columns before it. */
  function RefilledColumnAt(b: Board, x: int, make: nat -> Piece, d: nat): (r: seq<Cell>)
    requires Square(b) && 0 <= x < |b|
    ensures |r| == |b|
  {
    FilledColumn(Settled(Column(b, x)), make, d + 2 * HolesBefore(b, x))
  }

  /** The grid after the refill, column by column from the left, starting at draw d. */
  function Refilled(b: Board, make: nat -> Piece, d: nat): (r: Board)
    requires Square(b)
    ensures IsGrid(r, |b|)
  {
    seq(|b|, y requires 0 <= y < |b| =>
      seq(|b|, x requires 0 <= x < |b| => RefilledColumnAt(b, x, make, d)[y]))
  }

  /** No column left of x has a hole exactly when no cell left of x is empty. */
  lemma {:induction false} HolesBeforeZero(b: Board, x: int)
    requires Square(b) && 0 <= x <= |b|
    ensures HolesBefore(b, x) == 0 <==> forall y, k :: 0 <= y < |b| && 0 <= k < x ==> b[y][k].Some?
  {
    if x > 0 {
      HolesBeforeZero(b, x - 1);
      var c := Column(b, x - 1);
      NoHolesIffFull(c);
      assert forall y :: 0 <= y < |b| ==> c[y] == b[y][x - 1];
    }
  }

  /** The number of the first draw the refill leaves unused. */
  function DrawsAfterRefill(b: Board, d: nat): nat
    requires Square(b)
  {
    d + 2 * HolesBefore(b, |b|)
  }

  /**
   * What the refill does to column x: its pieces drop to the bottom in
   * their order, and exactly as many cells on top as the column had holes
   * get new pieces, from the draws that follow those of the columns to the
   * left.
   */
  lemma {:induction false} RefilledCells(b: Board, make: nat -> Piece, d: nat, x: int)
    requires Square(b) && 0 <= x < |b|
    ensures forall y :: 0 <= y < Holes(Column(b, x)) ==>
      Refilled(b, make, d)[y][x] == Some(make(d + 2 * HolesBefore(b, x) + 2 * y))
    ensures forall y :: Holes(Column(b, x)) <= y < |b| ==>
      Refilled(b, make, d)[y][x] == Survivors(Column(b, x))[y - Holes(Column(b, x))]
  {
    var c := Column(b, x);
    RefilledColumn(c, make, d + 2 * HolesBefore(b, x));
    forall y | 0 <= y < |b|
      ensures Refilled(b, make, d)[y][x] == RefilledColumnAt(b, x, make, d)[y]
    {
    }
  }

  /** After a refill no cell is empty, and a grid that was full is left as it was, using no draw. */
  lemma {:induction false} RefilledIsFull(b: Board, make: nat -> Piece, d: nat)
    requires Square(b)
    ensures Full(Refilled(b, make, d))
    ensures Full(b) ==> Refilled(b, make, d) == b && DrawsAfterRefill(b, d) == d
  {
    var r: Board := Refilled(b, make, d);
    forall yy, xx | 0 <= yy < |r| && 0 <= xx < |r[yy]|
      ensures r[yy][xx].Some?
    {
      RefilledCells(b, make, d, xx);
    }
    if Full(b) {
      FullUnchanged(b, make, d);
    }
  }

  /** On a full grid every column is settled and filled already, and no draw is used. */
  lemma {:induction false} FullUnchanged(b: Board, make: nat -> Piece, d: nat)
    requires Square(b) && Full(b)
    ensures Refilled(b, make, d) == b && DrawsAfterRefill(b, d) == d
  {
    FullGridUnchanged(b, make, d);
    NoHolesBefore(b, |b|);
  }

  lemma {:induction false} FullGridUnchanged(b: Board, make: nat -> Piece, d: nat)
    requires Square(b) && Full(b)
    ensures Refilled(b, make, d) == b
  {
    var r := Refilled(b, make, d);
    forall y, x | 0 <= y < |b| && 0 <= x < |b|
      ensures r[y][x] == b[y][x]
    {
      FullColumnUnchanged(b, make, d, x);
      assert r[y][x] == RefilledColumnAt(b, x, make, d)[y];
    }
    BoardEq(r, b);
  }

  lemma {:induction false} FullColumnUnchanged(b: Board, make: nat -> Piece, d: nat, x: int)
    requires Square(b) && Full(b) && 0 <= x < |b|
    ensures RefilledColumnAt(b, x, make, d) == Column(b, x)
  {
    var c := Column(b, x);
    SurvivorsOfFull(c);
    assert Settled(c) == c;
    FilledFull(c, make, d + 2 * HolesBefore(b, x));
  }

  lemma {:induction false} NoHolesBefore(b: Board, x: int)
    requires Square(b) && Full(b) && 0 <= x <= |b|
    ensures HolesBefore(b, x) == 0
  {
    if x > 0 {
      NoHolesBefore(b, x - 1);
      SurvivorsOfFull(Column(b, x - 1));
    }
  }

  /** The grid part-way through the refill: the columns left of k refilled, the others as they were. */
  function RefilledUpTo(b: Board, make: nat -> Piece, d: nat, k: int): (r: Board)
    requires Square(b) && 0 <= k <= |b|
    ensures IsGrid(r, |b|)
  {
    seq(|b|, y requires 0 <= y < |b| =>
      seq(|b|, x requires 0 <= x < |b| => if x < k then RefilledColumnAt(b, x, make, d)[y] else b[y][x]))
  }

  /** Before the first column nothing is refilled. */
  lemma {:induction false} RefilledUpToNone(b: Board, make: nat -> Piece, d: nat)
    requires Square(b)
    ensures RefilledUpTo(b, make, d, 0) == b
  {
    BoardEq(RefilledUpTo(b, make, d, 0), b);
  }

  /** After the last column the whole grid is refilled. */
  lemma {:induction false} RefilledUpToAll(b: Board, make: nat -> Piece, d: nat)
    requires Square(b)
    ensures RefilledUpTo(b, make, d, |b|) == Refilled(b, make, d)
  {
    BoardEq(RefilledUpTo(b, make, d, |b|), Refilled(b, make, d));
  }

  /**
   * The refill of column k on the grid g reached so far, after h holes in
   * the columns to its left: the column is still as it was, and settling it
   * and then filling it from draw e = d + 2 * h refills it.
   */
  lemma {:induction false} RefillStep(b: Board, make: nat -> Piece, d: nat, k: int, g: Board, h: nat, e: nat)
    requires Square(b) && 0 <= k < |b|
    requires g == RefilledUpTo(b, make, d, k) && h == HolesBefore(b, k) && e == d + 2 * h
    ensures Column(g, k) == Column(b, k)
    ensures SetColumn(g, k, FilledColumn(Settled(Column(g, k)), make, e)) == RefilledUpTo(b, make, d, k + 1)
    ensures HolesBefore(b, k + 1) == h + Holes(Column(g, k))
  {
    RefilledUpToNext(b, make, d, k);
    RefilledColumnAtIs(b, k, make, d);
  }

  lemma RefilledColumnAtIs(b: Board, x: int, make: nat -> Piece, d: nat)
    requires Square(b) && 0 <= x < |b|
    ensures RefilledColumnAt(b, x, make, d) == FilledColumn(Settled(Column(b, x)), make, d + 2 * HolesBefore(b, x))
  {
  }

  /** Column k is untouched before its turn, and its turn refills it. */
  lemma {:induction false} RefilledUpToNext(b: Board, make: nat -> Piece, d: nat, k: int)
    requires Square(b) && 0 <= k < |b|
    ensures Column(RefilledUpTo(b, make, d, k), k) == Column(b, k)
    ensures SetColumn(RefilledUpTo(b, make, d, k), k, RefilledColumnAt(b, k, make, d)) == RefilledUpTo(b, make, d, k + 1)
  {
    var g := RefilledUpTo(b, make, d, k);
    assert Column(g, k) == Column(b, k);
    var t := SetColumn(g, k, RefilledColumnAt(b, k, make, d));
    var u := RefilledUpTo(b, make, d, k + 1);
    forall y, x | 0 <= y < |b| && 0 <= x < |b|
      ensures t[y][x] == u[y][x]
    {
    }
    BoardEq(t, u);
  }
}
